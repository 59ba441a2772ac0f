/** ELF parsing and segment loading (src/exec/elf.rs): each LOAD segment of the file becomes a
    virtual memory object holding the file's bytes followed by zeros. */
module Elf {
  import opened Memory
  import opened Pmm
  import opened VmoObject
  import opened VmoRuns

  const ELFCLASS64: byte := 2
  const ELFDATA2LSB: byte := 1
  const EM_X86_64: nat := 62
  const ET_EXEC: nat := 2
  const PT_LOAD: nat := 1
  const MAX_SEGMENTS: nat := 16

  /** No slice is longer than `isize::MAX` bytes. */
  const SLICE_LIMIT: nat := 0x8000_0000_0000_0000

  datatype ElfHeader = ElfHeader(e_type: nat, e_machine: nat, e_entry: nat, e_phoff: nat, e_shoff: nat,
    e_phentsize: nat, e_phnum: nat)

  datatype ProgramHeader = ProgramHeader(p_type: nat, p_flags: nat, p_offset: nat, p_vaddr: nat, p_paddr: nat,
                                         p_filesz: nat, p_memsz: nat, p_align: nat)

  function Field(data: seq<byte>, at: nat, n: nat): nat
    requires at + n <= |data|
  {
    FromLE(data[at..at + n])
  }

  function ParseElfHeader(data: seq<byte>): Outcome<ElfHeader>
  {
    if |data| < 64 then Err("ELF file too small")
    else if data[0..4] != [0x7f, 0x45, 0x4c, 0x46] then Err("Invalid ELF magic (not an ELF file)")
    else if data[4] != ELFCLASS64 then Err("Not a 64-bit ELF (class must be 2)")
    else if data[5] != ELFDATA2LSB then Err("Not little-endian (endianness must be 1)")
    else Ok(ElfHeader(Field(data, 16, 2), Field(data, 18, 2), Field(data, 24, 8), Field(data, 32, 8),
      Field(data, 40, 8), Field(data, 54, 2), Field(data, 56, 2)))
  }

  /** The 64-bit file header layout; `ident`, `version` and `sizes` are bytes the parser skips. */
  function EncodeElfHeader(h: ElfHeader, ident: seq<byte>, version: seq<byte>, sizes: seq<byte>,
      rest: seq<byte>): seq<byte>
  {
    [0x7f, 0x45, 0x4c, 0x46, ELFCLASS64, ELFDATA2LSB] + ident + ToLE(h.e_type, 2) + ToLE(h.e_machine, 2) + version
    + ToLE(h.e_entry, 8) + ToLE(h.e_phoff, 8) + ToLE(h.e_shoff, 8) + sizes + ToLE(h.e_phentsize, 2)
      + ToLE(h.e_phnum, 2) + rest
  }

  predicate HeaderFits(h: ElfHeader)
  {
    && h.e_type < 0x1_0000 && h.e_machine < 0x1_0000 && h.e_phentsize < 0x1_0000 && h.e_phnum < 0x1_0000
    && h.e_entry < WORD_LIMIT && h.e_phoff < WORD_LIMIT && h.e_shoff < WORD_LIMIT
  }

  /** Where the header's fields lie (System V gABI, chapter 4, "ELF Header", for 64-bit files). */
  lemma ElfHeaderBytes(data: seq<byte>)
    requires ParseElfHeader(data).Ok?
    ensures |data| >= 64 && data[0] == 0x7f && data[1] == 0x45 && data[2] == 0x4c && data[3] == 0x46
    ensures var h := ParseElfHeader(data).value;
      && h.e_type == Number2(data, 16) && h.e_machine == Number2(data, 18) && h.e_entry == Number8(data, 24)
      && h.e_phoff == Number8(data, 32) && h.e_shoff == Number8(data, 40)
      && h.e_phentsize == Number2(data, 54) && h.e_phnum == Number2(data, 56)
  {
    hide FromLE, Number2, Number4, Number8;
    assert data[0..4][0] == data[0] && data[0..4][1] == data[1] && data[0..4][2] == data[2] && data[0..4][3] == data[3];
    LEBytes(data, 16);
    LEBytes(data, 18);
    LEBytes(data, 24);
    LEBytes(data, 32);
    LEBytes(data, 40);
    LEBytes(data, 54);
    LEBytes(data, 56);
  }

  /** Parsing inverts the layout. */
  lemma ElfHeaderRoundTrip(h: ElfHeader, ident: seq<byte>, version: seq<byte>, sizes: seq<byte>, rest: seq<byte>)
    requires HeaderFits(h) && |ident| == 10 && |version| == 4 && |sizes| == 6 && |rest| >= 6
    ensures ParseElfHeader(EncodeElfHeader(h, ident, version, sizes, rest)) == Ok(h)
  {
    hide ToLE, FromLE;
    var b := EncodeElfHeader(h, ident, version, sizes, rest);
    assert b[0..4] == [0x7f, 0x45, 0x4c, 0x46];
    assert b[16..18] == ToLE(h.e_type, 2) && b[18..20] == ToLE(h.e_machine, 2) && b[24..32] == ToLE(h.e_entry, 8);
    assert b[32..40] == ToLE(h.e_phoff, 8) && b[40..48] == ToLE(h.e_shoff, 8);
    assert b[54..56] == ToLE(h.e_phentsize, 2) && b[56..58] == ToLE(h.e_phnum, 2);
    Half(h.e_type);
    Half(h.e_machine);
    Half(h.e_phentsize);
    Half(h.e_phnum);
    Wide(h.e_entry);
    Wide(h.e_phoff);
    Wide(h.e_shoff);
  }

  /** Whatever parses has that layout: no file is accepted that is not one. */
  lemma ElfHeaderInverse(data: seq<byte>)
    requires ParseElfHeader(data).Ok?
    ensures |data| >= 64
    ensures data == EncodeElfHeader(ParseElfHeader(data).value, data[6..16], data[20..24], data[48..54], data[58..])
  {
    hide ToLE, FromLE;
    LEInverse(data[16..18]);
    LEInverse(data[18..20]);
    LEInverse(data[24..32]);
    LEInverse(data[32..40]);
    LEInverse(data[40..48]);
    LEInverse(data[54..56]);
    LEInverse(data[56..58]);
    assert data[..6] == data[0..4] + [data[4], data[5]];
    Pieces(data);
  }

  /** A sequence is its pieces. */
  lemma Pieces(b: seq<byte>)
    requires |b| >= 64
    ensures b == b[..6] + b[6..16] + b[16..18] + b[18..20] + b[20..24] + b[24..32] + b[32..40] + b[40..48] + b[48..54]
      + b[54..56] + b[56..58] + b[58..]
  {
  }

  function ValidateElfHeader(h: ElfHeader): (r: Outcome<()>)
    ensures r.Ok? <==> h.e_type == 2 && h.e_machine == 62 && h.e_phnum > 0 && h.e_phoff > 0 && h.e_phentsize >= 56
    ensures !r.Halt?
  {
    if h.e_type != ET_EXEC then Err("Not an executable (wrong e_type)")
    else if h.e_machine != EM_X86_64 then Err("Not x86_64 (wrong e_machine)")
    else if h.e_phnum == 0 then Err("No program headers")
    else if h.e_phoff == 0 || h.e_phentsize < 56 then Err("Invalid program header table")
    else Ok(())
  }

  function ParseProgramHeader(b: seq<byte>): ProgramHeader
    requires |b| >= 56
  {
    ProgramHeader(Field(b, 0, 4), Field(b, 4, 4), Field(b, 8, 8), Field(b, 16, 8), Field(b, 24, 8),
                  Field(b, 32, 8), Field(b, 40, 8), Field(b, 48, 8))
  }

  /** The entry layout of the System V gABI, chapter 5, "Program Header", for 64-bit files. */
  function EncodeProgramHeader(ph: ProgramHeader): seq<byte>
  {
    ToLE(ph.p_type, 4) + ToLE(ph.p_flags, 4) + ToLE(ph.p_offset, 8) + ToLE(ph.p_vaddr, 8) + ToLE(ph.p_paddr, 8)
    + ToLE(ph.p_filesz, 8) + ToLE(ph.p_memsz, 8) + ToLE(ph.p_align, 8)
  }

  predicate ProgramHeaderFits(ph: ProgramHeader)
  {
    && ph.p_type < 0x1_0000_0000 && ph.p_flags < 0x1_0000_0000
    && ph.p_offset < WORD_LIMIT && ph.p_vaddr < WORD_LIMIT && ph.p_paddr < WORD_LIMIT
    && ph.p_filesz < WORD_LIMIT && ph.p_memsz < WORD_LIMIT && ph.p_align < WORD_LIMIT
  }

  lemma FieldFits(data: seq<byte>, at: nat, n: nat)
    requires at + n <= |data| && n in {2, 4, 8}
    ensures Field(data, at, n) < if n == 2 then 0x1_0000 else if n == 4 then 0x1_0000_0000 else WORD_LIMIT
  {
    LEBound(data[at..at + n]);
    Pow256Of8();
    assert Pow256(2) == 0x1_0000 && Pow256(4) == 0x1_0000_0000;
  }

  lemma HeaderParsedFits(data: seq<byte>)
    ensures ParseElfHeader(data).Ok? ==> HeaderFits(ParseElfHeader(data).value)
  {
    hide Field;
    if ParseElfHeader(data).Ok? {
      FieldFits(data, 16, 2);
      FieldFits(data, 18, 2);
      FieldFits(data, 24, 8);
      FieldFits(data, 32, 8);
      FieldFits(data, 40, 8);
      FieldFits(data, 54, 2);
      FieldFits(data, 56, 2);
    }
  }

  lemma ParsedFits(b: seq<byte>)
    requires |b| >= 56
    ensures ProgramHeaderFits(ParseProgramHeader(b))
  {
    hide Field;
    FieldFits(b, 0, 4);
    FieldFits(b, 4, 4);
    FieldFits(b, 8, 8);
    FieldFits(b, 16, 8);
    FieldFits(b, 24, 8);
    FieldFits(b, 32, 8);
    FieldFits(b, 40, 8);
    FieldFits(b, 48, 8);
  }

  lemma ProgramHeaderBytes(b: seq<byte>)
    requires |b| >= 56
    ensures ParseProgramHeader(b) == ProgramHeader(Number4(b, 0), Number4(b, 4), Number8(b, 8), Number8(b, 16),
      Number8(b, 24), Number8(b, 32), Number8(b, 40), Number8(b, 48))
  {
    hide FromLE, Number2, Number4, Number8;
    LEBytes(b, 0);
    LEBytes(b, 4);
    LEBytes(b, 8);
    LEBytes(b, 16);
    LEBytes(b, 24);
    LEBytes(b, 32);
    LEBytes(b, 40);
    LEBytes(b, 48);
  }

  /** Parsing inverts the layout, also when entries are longer than 56 bytes. */
  lemma ProgramHeaderRoundTrip(ph: ProgramHeader, rest: seq<byte>)
    requires ProgramHeaderFits(ph)
    ensures |EncodeProgramHeader(ph)| == 56
    ensures ParseProgramHeader(EncodeProgramHeader(ph) + rest) == ph
  {
    hide ToLE, FromLE;
    Narrow(ph.p_type);
    Narrow(ph.p_flags);
    var b := EncodeProgramHeader(ph) + rest;
    assert b[0..4] == ToLE(ph.p_type, 4) && b[4..8] == ToLE(ph.p_flags, 4);
    assert b[8..16] == ToLE(ph.p_offset, 8) && b[16..24] == ToLE(ph.p_vaddr, 8) && b[24..32] == ToLE(ph.p_paddr, 8);
    assert b[32..40] == ToLE(ph.p_filesz, 8) && b[40..48] == ToLE(ph.p_memsz, 8) && b[48..56] == ToLE(ph.p_align, 8);
    Wide(ph.p_offset);
    Wide(ph.p_vaddr);
    Wide(ph.p_paddr);
    Wide(ph.p_filesz);
    Wide(ph.p_memsz);
    Wide(ph.p_align);
  }

  lemma Half(w: nat)
    requires w < 0x1_0000
    ensures FromLE(ToLE(w, 2)) == w
  {
    assert Pow256(2) == 0x1_0000;
    LERoundTrip(w, 2);
  }

  lemma Narrow(w: nat)
    requires w < 0x1_0000_0000
    ensures FromLE(ToLE(w, 4)) == w
  {
    assert Pow256(4) == 0x1_0000_0000;
    LERoundTrip(w, 4);
  }

  lemma Wide(w: nat)
    requires w < WORD_LIMIT
    ensures FromLE(ToLE(w, 8)) == w
  {
    Pow256Of8();
    LERoundTrip(w, 8);
  }

  // Program header table

  /** The entries that lie inside the file, from offset `at` on. */
  function HeadersAt(data: seq<byte>, at: nat, size: nat, n: nat): (hs: seq<ProgramHeader>)
    requires size >= 56
    decreases n
  {
    if n == 0 || at + size > |data| then []
    else [ParseProgramHeader(data[at..at + size])] + HeadersAt(data, at + size, size, n - 1)
  }

  /** The end of the first entry wraps around to a place inside the file, in front of its start:
      the slice of that entry panics. */
  predicate TablePanics(data: seq<byte>, phoff: nat, phentsize: nat)
  {
    WORD_LIMIT <= phoff + phentsize <= WORD_LIMIT + |data|
  }

  /** A 64-bit sum: what it is, and when it falls below its first part. */
  lemma WrappedSum(x: nat, y: nat)
    requires x < WORD_LIMIT && y < WORD_LIMIT
    ensures (x + y) % WORD_LIMIT == if x + y < WORD_LIMIT then x + y else x + y - WORD_LIMIT
    ensures (x + y) % WORD_LIMIT < x <==> x + y >= WORD_LIMIT
  {
  }

  method ParseProgramHeaders(data: seq<byte>, phoff: nat, phentsize: nat, phnum: nat)
      returns (r: Outcome<seq<ProgramHeader>>)
    requires 56 <= phentsize < 0x1_0000 && phoff < WORD_LIMIT && |data| < SLICE_LIMIT
    ensures r == if phnum > 0 && TablePanics(data, phoff, phentsize) then Halt
      else Ok(HeadersAt(data, phoff, phentsize, phnum))
  {
    hide ParseProgramHeader, HeadersAt, TablePanics;
    var headers := [];
    var i := 0;
    ghost var start := phoff;
    while i < phnum
      invariant i <= phnum && start == phoff + i * phentsize
      invariant if i == 0 then start == phoff else start <= |data| && !TablePanics(data, phoff, phentsize)
      invariant headers + HeadersAt(data, start, phentsize, phnum - i) == HeadersAt(data, phoff, phentsize, phnum)
    {
      EntryBounds(data, start, phentsize);
      var offset := (phoff + i * phentsize) % WORD_LIMIT;
      var end := (offset + phentsize) % WORD_LIMIT;
      NextHeader(data, start, phentsize, phnum - i);
      if end > |data| {
        assert headers + [] == headers;
        return Ok(headers);
      }
      if offset > end {
        return Halt;
      }
      var header := ParseProgramHeader(data[offset..end]);
      assert headers + ([header] + HeadersAt(data, end, phentsize, phnum - i - 1))
          == (headers + [header]) + HeadersAt(data, end, phentsize, phnum - i - 1);
      headers := headers + [header];
      NextStart(phoff, i, phentsize);
      i := i + 1;
      start := start + phentsize;
    }
    NextHeader(data, start, phentsize, 0);
    assert headers + [] == headers;
    return Ok(headers);
  }

  /** The bounds check of one entry, on sums cut to 64 bits. */
  lemma EntryBounds(data: seq<byte>, start: nat, size: nat)
    requires start < WORD_LIMIT && 56 <= size < 0x1_0000 && |data| < SLICE_LIMIT
    ensures start % WORD_LIMIT == start && (start <= |data| ==> !TablePanics(data, start, size))
    ensures var end := (start + size) % WORD_LIMIT;
      && (end > |data| ==> start + size > |data| && !TablePanics(data, start, size))
      && (end <= |data| && start > end ==> TablePanics(data, start, size))
      && (end <= |data| && start <= end ==> end == start + size && !TablePanics(data, start, size))
  {
    WrappedSum(start, 0);
    WrappedSum(start, size);
  }

  lemma NextHeader(data: seq<byte>, at: nat, size: nat, n: nat)
    requires size >= 56
    ensures n == 0 || at + size > |data| ==> HeadersAt(data, at, size, n) == []
    ensures n > 0 && at + size <= |data| ==>
      HeadersAt(data, at, size, n) == [ParseProgramHeader(data[at..at + size])]
        + HeadersAt(data, at + size, size, n - 1)
  {
  }

  lemma NextStart(phoff: nat, i: nat, size: nat)
    ensures phoff + (i + 1) * size == phoff + i * size + size
  {
  }

  lemma {:induction false} HeadersFit(data: seq<byte>, at: nat, size: nat, n: nat)
    requires size >= 56
    ensures forall ph :: ph in HeadersAt(data, at, size, n) ==> ProgramHeaderFits(ph)
    decreases n
  {
    hide ParseProgramHeader, ProgramHeaderFits;
    if n > 0 && at + size <= |data| {
      ParsedFits(data[at..at + size]);
      HeadersFit(data, at + size, size, n - 1);
    }
  }

  /** Entry `i` of the table is the header at `phoff + i * size`; the list stops early only
      where the file ends. */
  lemma {:induction false} HeadersAtIndex(data: seq<byte>, at: nat, size: nat, n: nat, i: nat)
    requires size >= 56
    ensures |HeadersAt(data, at, size, n)| <= n
    ensures i < |HeadersAt(data, at, size, n)| ==>
      at + i * size + size <= |data| &&
        HeadersAt(data, at, size, n)[i] == ParseProgramHeader(data[at + i * size..at + i * size + size])
    ensures i == |HeadersAt(data, at, size, n)| < n ==> at + i * size + size > |data|
    decreases n
  {
    hide ParseProgramHeader;
    if n > 0 && at + size <= |data| {
      if i > 0 {
        HeadersAtIndex(data, at + size, size, n - 1, i - 1);
        assert at + size + (i - 1) * size == at + i * size;
      } else {
        HeadersAtIndex(data, at + size, size, n - 1, 0);
      }
    }
  }

  /** LOAD entries, in file order. */
  function Loads(hs: seq<ProgramHeader>): seq<ProgramHeader>
  {
    if hs == [] then []
    else (if hs[0].p_type == PT_LOAD then [hs[0]] else []) + Loads(hs[1..])
  }

  function Take16(hs: seq<ProgramHeader>): (r: seq<ProgramHeader>)
    ensures |r| == Min(|hs|, 16) && forall k :: 0 <= k < |r| ==> r[k] == hs[k]
  {
    if |hs| <= MAX_SEGMENTS then hs else hs[..MAX_SEGMENTS]
  }

  function MemSize(ph: ProgramHeader): (n: nat)
    ensures n >= ph.p_memsz && n >= ph.p_filesz && (n == ph.p_memsz || n == ph.p_filesz)
  {
    if ph.p_memsz >= ph.p_filesz then ph.p_memsz else ph.p_filesz
  }

  /** Segments that occupy memory. */
  function NonEmpty(hs: seq<ProgramHeader>): seq<ProgramHeader>
  {
    if hs == [] then []
    else NonEmpty(hs[..|hs| - 1]) + (if MemSize(hs[|hs| - 1]) > 0 then [hs[|hs| - 1]] else [])
  }

  /** Nothing that occupies memory is dropped, nothing else is kept. */
  lemma {:induction false} NonEmptyExact(hs: seq<ProgramHeader>, ph: ProgramHeader)
    ensures ph in NonEmpty(hs) <==> ph in hs && MemSize(ph) > 0
  {
    if hs != [] {
      NonEmptyExact(hs[..|hs| - 1], ph);
      assert hs == hs[..|hs| - 1] + [hs[|hs| - 1]];
    }
  }

  /** The entries that occupy memory, at ascending positions: nothing is reordered, dropped or
      repeated. */
  lemma {:induction false} NonEmptyInOrder(hs: seq<ProgramHeader>) returns (ix: seq<nat>)
    ensures Picks(hs, ix, NonEmpty(hs))
    ensures forall i :: 0 <= i < |hs| ==> (i in ix <==> MemSize(hs[i]) > 0)
  {
    ix := [];
    if hs != [] {
      var n := |hs| - 1;
      var front := NonEmptyInOrder(hs[..n]);
      assert hs == hs[..n] + [hs[n]];
      PicksAppend(hs[..n], front, NonEmpty(hs[..n]), hs[n], MemSize(hs[n]) > 0);
      ix := front + if MemSize(hs[n]) > 0 then [n] else [];
    }
  }

  lemma {:induction false} LoadsExact(hs: seq<ProgramHeader>, ph: ProgramHeader)
    ensures ph in Loads(hs) <==> ph in hs && ph.p_type == PT_LOAD
  {
    if hs != [] {
      LoadsExact(hs[1..], ph);
      assert hs == [hs[0]] + hs[1..];
    }
  }

  /** The LOAD entries, at ascending positions. */
  lemma {:induction false} LoadsInOrder(hs: seq<ProgramHeader>) returns (ix: seq<nat>)
    ensures Picks(hs, ix, Loads(hs)) && forall i :: 0 <= i < |hs| ==> (i in ix <==> hs[i].p_type == 1)
  {
    ix := [];
    if hs != [] {
      var rest := LoadsInOrder(hs[1..]);
      assert hs == [hs[0]] + hs[1..];
      ix := PicksPrepend(hs[0], hs[0].p_type == PT_LOAD, hs[1..], rest, Loads(hs[1..]));
    }
  }

  predicate InFile(data: seq<byte>, ph: ProgramHeader)
  {
    ph.p_filesz > 0 ==> ph.p_offset + ph.p_filesz <= |data|
  }

  /** What the loader makes of a file or a part of it, apart from memory running out. */
  datatype Verdict = Fine | Refused | Panics

  /** A segment is refused when it ends behind the file, or when its size rounded up to pages is
      2^64, which the code takes for 0. When only the sum of offset and file size wraps around to
      a place inside the file, slicing the file panics. */
  function SegmentVerdict(data: seq<byte>, ph: ProgramHeader): Verdict
  {
    if InFile(data, ph) then if MemSize(ph) + 4096 <= WORD_LIMIT then Fine else Refused
    else if WORD_LIMIT <= ph.p_offset + ph.p_filesz <= WORD_LIMIT + |data| then Panics
    else Refused
  }

  /** For instance: two bytes at offset 2^64 - 1 of a nonempty file panic, and a segment of 2^64 - 1
      bytes in memory is refused. */
  lemma OverflowExample(data: seq<byte>)
    requires 0 < |data| < SLICE_LIMIT
    ensures SegmentVerdict(data, ProgramHeader(PT_LOAD, 4, 0xffff_ffff_ffff_ffff, 0, 0, 2, 2, 4096)) == Panics
    ensures SegmentVerdict(data, ProgramHeader(PT_LOAD, 4, 0, 0, 0, 0, 0xffff_ffff_ffff_ffff, 4096)) == Refused
  {
  }

  /** The first segment that is not fine decides. */
  function TableVerdict(data: seq<byte>, table: seq<ProgramHeader>): Verdict
  {
    if table == [] then Fine
    else if SegmentVerdict(data, table[0]) != Fine then SegmentVerdict(data, table[0])
    else TableVerdict(data, table[1..])
  }

  lemma {:induction false} VerdictAt(data: seq<byte>, table: seq<ProgramHeader>, i: nat)
    requires i <= |table| && forall j :: 0 <= j < i ==> SegmentVerdict(data, table[j]) == Fine
    ensures i == |table| ==> TableVerdict(data, table) == Fine
    ensures i < |table| && SegmentVerdict(data, table[i]) != Fine ==>
      TableVerdict(data, table) == SegmentVerdict(data, table[i])
  {
    hide SegmentVerdict;
    if i > 0 {
      VerdictAt(data, table[1..], i - 1);
    }
  }

  /** The comparisons of the code, on sums cut to 64 bits, come to that. */
  lemma WrappedChecks(data: seq<byte>, ph: ProgramHeader)
    requires ProgramHeaderFits(ph) && |data| < SLICE_LIMIT && ph.p_filesz > 0
    ensures var end := (ph.p_offset + ph.p_filesz) % WORD_LIMIT;
      && (end > |data| ==> SegmentVerdict(data, ph) == Refused)
      && (end <= |data| && ph.p_offset > end ==> SegmentVerdict(data, ph) == Panics)
      && (end <= |data| && ph.p_offset <= end ==> InFile(data, ph) && end == ph.p_offset + ph.p_filesz)
  {
    WrappedSum(ph.p_offset, ph.p_filesz);
  }

  lemma WrappedSize(n: nat)
    requires 0 < n < WORD_LIMIT
    ensures (n + 4095) % WORD_LIMIT / 4096 * 4096 == if n + 4096 <= WORD_LIMIT then RoundUp(n) else 0
  {
    WrappedSum(n, 4095);
  }

  /** The segments `load_elf` loads from a file with a good header: the first 16 LOAD entries. */
  function LoadTable(data: seq<byte>): seq<ProgramHeader>
  {
    var h := ParseElfHeader(data);
    if h.Ok? && h.value.e_phentsize >= 56
    then Take16(Loads(HeadersAt(data, h.value.e_phoff, h.value.e_phentsize, h.value.e_phnum)))
    else []
  }

  /** The load table: the LOAD entries of the file in file order, and of more than 16 the first 16. */
  lemma LoadTableInOrder(data: seq<byte>) returns (ix: seq<nat>)
    requires ParseElfHeader(data).Ok? && ParseElfHeader(data).value.e_phentsize >= 56
    ensures var h := ParseElfHeader(data).value;
      var hs := HeadersAt(data, h.e_phoff, h.e_phentsize, h.e_phnum);
      && Picks(hs, ix, LoadTable(data)) && |ix| <= 16
      && (forall k :: 0 <= k < |ix| ==> hs[ix[k]].p_type == 1)
      && (forall i :: 0 <= i < |hs| && hs[i].p_type == 1 && i !in ix ==> |ix| == 16 && ix[15] < i)
  {
    hide ParseElfHeader, HeadersAt, Loads;
    var h := ParseElfHeader(data).value;
    var hs := HeadersAt(data, h.e_phoff, h.e_phentsize, h.e_phnum);
    var all := LoadsInOrder(hs);
    ix := if |all| <= 16 then all else all[..16];
    forall i | i in all
      ensures i in ix || (|ix| == 16 && ix[15] < i)
    {
      FirstSixteen(all, ix, i);
    }
    forall k | 0 <= k < |ix|
      ensures hs[ix[k]].p_type == 1
    {
      assert ix[k] == all[k] && all[k] in all;
    }
  }

  lemma FirstSixteen(all: seq<nat>, ix: seq<nat>, i: nat)
    requires Ascends(all) && ix == (if |all| <= 16 then all else all[..16]) && i in all
    ensures i in ix || (|ix| == 16 && ix[15] < i)
  {
    var k :| 0 <= k < |all| && all[k] == i;
    if k < 16 {
      assert ix[k] == i;
    }
  }

  /** Segment `ph` is the program header at entry `j` of the file's table, and occupies memory. */
  predicate IsEntry(data: seq<byte>, h: ElfHeader, ph: ProgramHeader, j: nat)
  {
    var at := h.e_phoff + j * h.e_phentsize;
    && j < h.e_phnum && 56 <= h.e_phentsize && at + h.e_phentsize <= |data|
    && ph == ParseProgramHeader(data[at..at + h.e_phentsize])
    && ph.p_type == 1 && (ph.p_memsz > 0 || ph.p_filesz > 0)
  }

  /** Entry `i` is no LOAD entry, occupies no memory, or comes after 16 other LOAD entries `ix`. */
  predicate SkippedEntry(hs: seq<ProgramHeader>, ix: seq<nat>, i: nat)
    requires i < |hs|
  {
    || hs[i].p_type != 1 || (hs[i].p_memsz == 0 && hs[i].p_filesz == 0)
    || (|ix| == 16 && forall k :: 0 <= k < 16 ==> ix[k] < i && hs[ix[k]].p_type == 1)
  }

  /** What the loader loads, down to the file: segment `k` is the program header at entry `jx[k]`,
      the entries ascend, and one that is left out is no LOAD entry, occupies no memory, or comes
      after 16 others. */
  lemma SegmentsInOrder(data: seq<byte>) returns (jx: seq<nat>, ix: seq<nat>)
    requires ParseElfHeader(data).Ok? && ParseElfHeader(data).value.e_phentsize >= 56
    ensures var h, phs := ParseElfHeader(data).value, NonEmpty(LoadTable(data));
      var hs := HeadersAt(data, h.e_phoff, h.e_phentsize, h.e_phnum);
      && |jx| == |phs| && Ascends(jx) && Ascends(ix)
      && (forall k :: 0 <= k < |jx| ==> IsEntry(data, h, phs[k], jx[k]))
      && (forall i :: 0 <= i < |hs| && i !in jx ==> SkippedEntry(hs, ix, i))
  {
    hide ParseElfHeader, HeadersAt, Loads, NonEmpty, LoadTable, ParseProgramHeader, MemSize;
    var h := ParseElfHeader(data).value;
    var hs := HeadersAt(data, h.e_phoff, h.e_phentsize, h.e_phnum);
    ix := LoadTableInOrder(data);
    var nx := NonEmptyInOrder(LoadTable(data));
    jx := PicksTrans(hs, ix, LoadTable(data), nx, NonEmpty(LoadTable(data)));
    forall k | 0 <= k < |jx|
      ensures IsEntry(data, h, NonEmpty(LoadTable(data))[k], jx[k])
    {
      HeadersAtIndex(data, h.e_phoff, h.e_phentsize, h.e_phnum, jx[k]);
      assert nx[k] in nx && hs[ix[nx[k]]].p_type == 1;
    }
    forall i | 0 <= i < |hs| && i !in jx
      ensures SkippedEntry(hs, ix, i)
    {
      if i in ix {
        var m :| 0 <= m < |ix| && ix[m] == i;
        PickedThrough(ix, nx, jx, m);
        assert LoadTable(data)[m] == hs[i];
      }
    }
  }

  // Segment images

  /** Byte `k` of a segment in memory. */
  function SegmentByte(data: seq<byte>, ph: ProgramHeader, k: nat): byte
    requires InFile(data, ph)
  {
    if k < ph.p_filesz then data[ph.p_offset + k] else 0
  }

  /** The object holds the first `n` bytes of the segment, on exactly the pages they need. */
  ghost predicate Image(data: seq<byte>, ph: ProgramHeader, n: nat, ram: Ram, pages: PageMap)
    requires InFile(data, ph)
  {
    && (forall k: nat :: k in pages <==> k % 4096 == 0 && k < n)
    && (forall k :: 0 <= k < n ==> ByteAt(ram, pages, k) == SegmentByte(data, ph, k))
  }

  /** One more piece of the segment, written right after the bytes already there. */
  lemma ImageGrows(data: seq<byte>, ph: ProgramHeader, n: nat, s: States, ram: Ram, size: nat, pages: PageMap,
      piece: seq<byte>, s': States, ram': Ram, pages': PageMap)
    requires InFile(data, ph) && Image(data, ph, n, ram, pages) && Backed(ram', s', pages')
    requires n + |piece| <= size && |piece| > 0
    requires WriteEffect(s, ram, size, pages, n, piece, Ok(|piece|), s', ram', pages')
    requires forall i :: 0 <= i < |piece| ==> piece[i] == SegmentByte(data, ph, n + i)
    ensures Image(data, ph, n + |piece|, ram', pages')
  {
    hide Preserves, SegmentByte;
    assert piece[..|piece|] == piece;
    forall k: nat
      ensures k in pages' <==> k % 4096 == 0 && k < n + |piece|
    {
      assert Touches(n, |piece|, k) || k % 4096 != 0 || k >= n + |piece| || k + 4096 <= n;
    }
    forall k | 0 <= k < n + |piece|
      ensures ByteAt(ram', pages', k) == SegmentByte(data, ph, k)
    {
      StoredByte(ram, ram', pages, pages', n, piece, k);
    }
  }

  // Loading

  /** A segment's object is fresh, backed by pages that were Free, and disturbs nobody. */
  ghost predicate LoadEffect(s: States, ram: Ram, s': States, ram': Ram, pages: PageMap)
  {
    Preserves(s, ram, s', ram', {}) && Grown(s, map[], pages)
  }

  lemma LoadEffectStep(s0: States, r0: Ram, s: States, r: Ram, pages: PageMap, size: nat, n: nat, piece: seq<byte>,
      w: Outcome<nat>, s': States, r': Ram, pages': PageMap)
    requires LoadEffect(s0, r0, s, r, pages) && WriteEffect(s, r, size, pages, n, piece, w, s', r', pages')
    ensures LoadEffect(s0, r0, s', r', pages')
  {
    hide Stored, Touches;
    forall q | q in Frames(pages)
      ensures q in s0 && s0[q] == Free
    {
      var k :| k in pages && pages[k].paddr == q;
    }
    PreservesTrans(s0, r0, s, r, s', r', {}, Frames(pages));
  }

  /** Loads one segment: its file bytes in one write, the rest zeroed in 256-byte chunks. */
  method LoadSegment(phys: PhysMem, pmm: Manager, data: seq<byte>, ph: ProgramHeader) returns (r: Outcome<Vmo>)
    requires pmm.Valid() && pmm.states.Keys <= phys.ram.Keys
    requires InFile(data, ph) && MemSize(ph) > 0 && ProgramHeaderFits(ph)
    modifies phys, pmm`arenas, pmm`states
    ensures pmm.Valid() && (r.Err? <==> SegmentVerdict(data, ph) == Refused)
    ensures Preserves(old(pmm.states), old(phys.ram), pmm.states, phys.ram, {})
    ensures r.Ok? ==>
      && fresh(r.value) && r.value.phys == phys && r.value.pmm == pmm && r.value.Valid()
      && LoadEffect(old(pmm.states), old(phys.ram), pmm.states, phys.ram, r.value.pages)
      && Image(data, ph, MemSize(ph), phys.ram, r.value.pages)
    ensures Charged(old(pmm.states), pmm.states, Zone(pmm.home, PMM_ALLOC_FLAG_USER), if r.Err? then 0
      else PageCount(MemSize(ph)), r.Halt?)
  {
    hide Represents, ArenasOk, Homes, LoadEffect, Backed, Image, WriteEffect, Preserves, Charged, Zone, LoadedUpTo,
      PageCount;
    ghost var s0, r0, user := pmm.states, phys.ram, Zone(pmm.home, PMM_ALLOC_FLAG_USER);
    var memSize := MemSize(ph);
    WrappedSize(memSize);
    var alignedSize := (memSize + 4095) % WORD_LIMIT / 4096 * 4096;
    var created := Vmo.Create(phys, pmm, alignedSize, 0);
    if created.Err? {
      PreservesRefl(s0, r0);
      ChargedNothing(s0, user);
      return Err("Failed to create VMO");
    }
    var vmo := created.value;
    assert vmo.size >= memSize;
    LoadStart(data, ph, s0, r0, user);
    if ph.p_filesz > 0 {
      var segment := data[ph.p_offset..ph.p_offset + ph.p_filesz];
      r := WritePiece(vmo, data, ph, 0, segment, s0, r0);
      if !r.Ok? {
        ShortOf(s0, pmm.states, user, ph.p_filesz, memSize);
        return;
      }
    }
    var n := ph.p_filesz;
    while n < ph.p_memsz
      invariant ph.p_filesz <= n <= memSize
      invariant vmo.Valid() && vmo.size >= memSize
      invariant LoadedUpTo(data, ph, n, s0, r0, pmm.states, phys.ram, vmo.pages, user)
    {
      var chunk := Min(ph.p_memsz - n, 256);
      r := WritePiece(vmo, data, ph, n, seq(chunk, _ => 0), s0, r0);
      if !r.Ok? {
        ShortOf(s0, pmm.states, user, n + chunk, memSize);
        return;
      }
      n := n + chunk;
    }
    LoadedParts(data, ph, n, s0, r0, pmm.states, phys.ram, vmo.pages, user);
    return Ok(vmo);
  }

  /** The first `n` bytes of the segment are in the object, and its pages are charged. */
  ghost predicate LoadedUpTo(data: seq<byte>, ph: ProgramHeader, n: nat, s0: States, r0: Ram, s: States, r: Ram,
      pages: PageMap, zone: set<nat>)
    requires InFile(data, ph)
  {
    LoadEffect(s0, r0, s, r, pages) && Image(data, ph, n, r, pages) && Charged(s0, s, zone, PageCount(n), false)
  }

  lemma LoadedParts(data: seq<byte>, ph: ProgramHeader, n: nat, s0: States, r0: Ram, s: States, r: Ram, pages: PageMap,
      zone: set<nat>)
    requires InFile(data, ph) && LoadedUpTo(data, ph, n, s0, r0, s, r, pages, zone)
    ensures LoadEffect(s0, r0, s, r, pages) && Image(data, ph, n, r, pages) && Charged(s0, s, zone, PageCount(n), false)
    ensures Preserves(s0, r0, s, r, {})
  {
    hide Image, Charged;
  }

  /** One write of the next bytes of a segment into its object. */
  method WritePiece(vmo: Vmo, ghost data: seq<byte>, ghost ph: ProgramHeader, n: nat, piece: seq<byte>,
      ghost s0: States, ghost r0: Ram)
      returns (r: Outcome<Vmo>)
    requires vmo.Valid() && n + |piece| <= vmo.size && |piece| > 0
    requires InFile(data, ph) && forall i :: 0 <= i < |piece| ==> piece[i] == SegmentByte(data, ph, n + i)
    requires LoadedUpTo(data, ph, n, s0, r0, vmo.pmm.states, vmo.phys.ram, vmo.pages,
      Zone(vmo.pmm.home, PMM_ALLOC_FLAG_USER))
    modifies vmo`pages, vmo.phys, vmo.pmm`arenas, vmo.pmm`states
    ensures vmo.Valid() && !r.Err? && (r.Ok? ==> r.value == vmo)
    ensures Preserves(s0, r0, vmo.pmm.states, vmo.phys.ram, {})
    ensures r.Ok? ==>
      LoadedUpTo(data, ph, n + |piece|, s0, r0, vmo.pmm.states, vmo.phys.ram, vmo.pages,
        Zone(vmo.pmm.home, PMM_ALLOC_FLAG_USER))
    ensures r.Halt? ==> Charged(s0, vmo.pmm.states, Zone(vmo.pmm.home, PMM_ALLOC_FLAG_USER), PageCount(n + |piece|),
      true)
  {
    hide Represents, ArenasOk, Homes, LoadEffect, Backed, Image, Preserves, Stored, Grown, Charged, Zone, Missing,
      PageCount, LoadedUpTo, WriteEffect;
    ghost var user := Zone(vmo.pmm.home, PMM_ALLOC_FLAG_USER);
    ghost var s, ram, pages := vmo.pmm.states, vmo.phys.ram, vmo.pages;
    LoadedParts(data, ph, n, s0, r0, s, ram, pages, user);
    ImageNeed(data, ph, n, ram, pages, |piece|);
    var w := vmo.Write(n, piece);
    WroteAll(s, ram, vmo.size, pages, n, piece, w, vmo.pmm.states, vmo.phys.ram, vmo.pages);
    LoadEffectStep(s0, r0, s, ram, pages, vmo.size, n, piece, w, vmo.pmm.states, vmo.phys.ram, vmo.pages);
    LoadPreserves(s0, r0, vmo.pmm.states, vmo.phys.ram, vmo.pages);
    ChargedTrans(s0, s, vmo.pmm.states, user, PageCount(n), PageCount(n + |piece|) - PageCount(n), w.Halt?);
    if w.Halt? {
      return Halt;
    }
    ImageGrows(data, ph, n, s, ram, vmo.size, pages, piece, vmo.pmm.states, vmo.phys.ram, vmo.pages);
    LoadedWhole(data, ph, n + |piece|, s0, r0, vmo.pmm.states, vmo.phys.ram, vmo.pages, user);
    return Ok(vmo);
  }

  lemma WroteAll(s: States, ram: Ram, size: nat, pages: PageMap, n: nat, piece: seq<byte>, w: Outcome<nat>, s': States,
      ram': Ram, pages': PageMap)
    requires WriteEffect(s, ram, size, pages, n, piece, w, s', ram', pages') && n + |piece| <= size && |piece| > 0
    ensures w.Halt? || w == Ok(|piece|)
  {
  }

  lemma LoadedWhole(data: seq<byte>, ph: ProgramHeader, n: nat, s0: States, r0: Ram, s: States, r: Ram, pages: PageMap,
      zone: set<nat>)
    requires InFile(data, ph) && LoadEffect(s0, r0, s, r, pages) && Image(data, ph, n, r, pages) &&
      Charged(s0, s, zone, PageCount(n), false)
    ensures LoadedUpTo(data, ph, n, s0, r0, s, r, pages, zone)
  {
    hide LoadEffect, Image, Charged;
  }

  lemma ShortOf(s0: States, s: States, zone: set<nat>, n: nat, m: nat)
    requires Charged(s0, s, zone, PageCount(n), true) && n <= m
    ensures Charged(s0, s, zone, PageCount(m), true)
  {
    hide Charged;
    ChargedMore(s0, s, zone, PageCount(n), PageCount(m));
  }

  lemma ImageNeed(data: seq<byte>, ph: ProgramHeader, n: nat, ram: Ram, pages: PageMap, c: nat)
    requires InFile(data, ph) && Image(data, ph, n, ram, pages) && c > 0
    ensures PageCount(n) <= PageCount(n + c) && |Missing(pages, n, c)| == PageCount(n + c) - PageCount(n)
  {
    AppendNeed(pages, n, c);
  }

  lemma LoadStart(data: seq<byte>, ph: ProgramHeader, s: States, ram: Ram, zone: set<nat>)
    requires InFile(data, ph)
    ensures LoadedUpTo(data, ph, 0, s, ram, s, ram, map[], zone) && Backed(ram, s, map[])
  {
    ChargedNothing(s, zone);
  }

  lemma LoadPreserves(s0: States, r0: Ram, s: States, r: Ram, pages: PageMap)
    requires LoadEffect(s0, r0, s, r, pages)
    ensures Preserves(s0, r0, s, r, {})
  {
  }

  // The whole file

  datatype LoadedSegment = LoadedSegment(vaddr: nat, size: nat, vmo: Vmo, flags: nat)

  datatype LoadedElf = LoadedElf(entry: nat, segments: seq<LoadedSegment>, stackAddr: nat, stackSize: nat)

  const STACK_ADDR: nat := 0x7fff_ffff_f000
  const STACK_SIZE: nat := 4096

  /** The objects hold the segments `phs`, each on frames of its own. */
  ghost predicate Images(data: seq<byte>, phs: seq<ProgramHeader>, s: States, ram: Ram, maps: seq<PageMap>)
  {
    && |maps| == |phs|
    && (forall i :: 0 <= i < |phs| ==>
          InFile(data, phs[i]) && Backed(ram, s, maps[i]) && Image(data, phs[i], MemSize(phs[i]), ram, maps[i]))
    && (forall i, j :: 0 <= i < |maps| && 0 <= j < |maps| && i != j ==> Disjoint(maps[i], maps[j]))
  }

  ghost predicate Describes(segments: seq<LoadedSegment>, phs: seq<ProgramHeader>, phys: PhysMem, pmm: Manager)
  {
    && |segments| == |phs|
    && (forall i :: 0 <= i < |phs| ==>
          && segments[i].vaddr == phs[i].p_vaddr && segments[i].size == MemSize(phs[i]) &&
             segments[i].flags == phs[i].p_flags
          && segments[i].vmo.phys == phys && segments[i].vmo.pmm == pmm)
  }

  /** What the loader makes of a whole file. */
  function FileVerdict(data: seq<byte>): Verdict
  {
    var header := ParseElfHeader(data);
    if !header.Ok? || !ValidateElfHeader(header.value).Ok? then Refused
    else if TablePanics(data, header.value.e_phoff, header.value.e_phentsize) then Panics
    else TableVerdict(data, LoadTable(data))
  }

  lemma ImageStays(data: seq<byte>, ph: ProgramHeader, n: nat, s: States, ram: Ram, pages: PageMap, s': States,
      ram': Ram, touched: set<nat>)
    requires InFile(data, ph) && Image(data, ph, n, ram, pages) && Backed(ram, s, pages)
    requires Preserves(s, ram, s', ram', touched) && Outside(pages, touched)
    ensures Image(data, ph, n, ram', pages) && Backed(ram', s', pages)
  {
    hide SegmentByte, InFile;
    FramesStay(s, ram, s', ram', touched, pages);
  }

  /** Images survive any step that touches none of their frames. */
  lemma ImagesStay(data: seq<byte>, phs: seq<ProgramHeader>, s: States, ram: Ram, maps: seq<PageMap>, s': States,
      ram': Ram, touched: set<nat>)
    requires Images(data, phs, s, ram, maps) && Preserves(s, ram, s', ram', touched)
    requires forall i :: 0 <= i < |maps| ==> Outside(maps[i], touched)
    ensures Images(data, phs, s', ram', maps)
  {
    hide Image, Backed, Preserves, Disjoint, InFile, Outside;
    forall i | 0 <= i < |phs|
      ensures InFile(data, phs[i]) && Backed(ram', s', maps[i]) && Image(data, phs[i], MemSize(phs[i]), ram', maps[i])
    {
      ImageStays(data, phs[i], MemSize(phs[i]), s, ram, maps[i], s', ram', touched);
    }
  }

  lemma ImagesAdd(data: seq<byte>, phs: seq<ProgramHeader>, s: States, ram: Ram, maps: seq<PageMap>, ph: ProgramHeader,
                  s': States, ram': Ram, pages: PageMap)
    requires Images(data, phs, s, ram, maps) && LoadEffect(s, ram, s', ram', pages)
    requires InFile(data, ph) && Backed(ram', s', pages) && Image(data, ph, MemSize(ph), ram', pages)
    ensures Images(data, phs + [ph], s', ram', maps + [pages])
  {
    hide Image, Backed, Preserves, Disjoint, InFile, Grown;
    forall i | 0 <= i < |maps|
      ensures Outside(maps[i], {}) && Disjoint(maps[i], pages) && Disjoint(pages, maps[i])
    {
      EmptyDisjoint(maps[i]);
      GrownApart(ram, s, map[], pages, maps[i]);
    }
    ImagesStay(data, phs, s, ram, maps, s', ram', {});
  }

  lemma EmptyDisjoint(pages: PageMap)
    ensures Disjoint(map[], pages) && Outside(pages, {})
  {
  }

  /** `load_elf` without its debug prints. The result holds exactly the non-empty segments
      among the first 16 LOAD entries, in order. */
  method LoadElf(phys: PhysMem, pmm: Manager, data: seq<byte>) returns (r: Outcome<LoadedElf>, ghost maps: seq<PageMap>)
    requires pmm.Valid() && pmm.states.Keys <= phys.ram.Keys && |data| < SLICE_LIMIT
    modifies phys, pmm`arenas, pmm`states
    ensures pmm.Valid() && Preserves(old(pmm.states), old(phys.ram), pmm.states, phys.ram, {})
    ensures r.Ok? ==> FileVerdict(data) == Fine
    ensures r.Err? ==> FileVerdict(data) == Refused
    ensures r.Ok? ==>
      && r.value.entry == ParseElfHeader(data).value.e_entry && r.value.stackAddr == STACK_ADDR &&
         r.value.stackSize == STACK_SIZE
      && Describes(r.value.segments, NonEmpty(LoadTable(data)), phys, pmm)
      && Images(data, NonEmpty(LoadTable(data)), pmm.states, phys.ram, maps)
      && (forall i :: 0 <= i < |r.value.segments| ==>
            fresh(r.value.segments[i].vmo) && r.value.segments[i].vmo.Valid() &&
              r.value.segments[i].vmo.pages == maps[i])
    ensures Spent(old(pmm.states), pmm.states, Zone(pmm.home, PMM_ALLOC_FLAG_USER), PagesOf(NonEmpty(LoadTable(data))),
      r.Ok?, r.Halt? && FileVerdict(data) != Panics)
  {
    hide Spent, Zone, PagesOf, Homes, Represents, ArenasOk, Images, Backed, Preserves, Disjoint, ParseElfHeader,
      ValidateElfHeader, HeadersAt, Loads, NonEmpty, Describes, FileVerdict, TablePanics, TableVerdict;
    maps := [];
    PreservesRefl(pmm.states, phys.ram);
    NothingSpent(pmm.states, Zone(pmm.home, PMM_ALLOC_FLAG_USER), PagesOf(NonEmpty(LoadTable(data))));
    VerdictParts(data);
    HeaderParsedFits(data);
    var header := ParseElfHeader(data);
    if header.Err? {
      return Err(header.error), maps;
    }
    var valid := ValidateElfHeader(header.value);
    if valid.Err? {
      return Err(valid.error), maps;
    }
    var h := header.value;
    var headers := ParseProgramHeaders(data, h.e_phoff, h.e_phentsize, h.e_phnum);
    if headers.Halt? {
      return Halt, maps;
    }
    LoadTableFits(data);
    var segments;
    segments, maps := LoadSegments(phys, pmm, data, Take16(Loads(headers.value)));
    if !segments.Ok? {
      return if segments.Halt? then Halt else Err(segments.error), maps;
    }
    return Ok(LoadedElf(h.e_entry, segments.value, STACK_ADDR, STACK_SIZE)), maps;
  }

  /** The loop over the load table. */
  method LoadSegments(phys: PhysMem, pmm: Manager, data: seq<byte>, table: seq<ProgramHeader>)
      returns (r: Outcome<seq<LoadedSegment>>, ghost maps: seq<PageMap>)
    requires pmm.Valid() && pmm.states.Keys <= phys.ram.Keys && |data| < SLICE_LIMIT
    requires forall i :: 0 <= i < |table| ==> ProgramHeaderFits(table[i])
    modifies phys, pmm`arenas, pmm`states
    ensures pmm.Valid() && Preserves(old(pmm.states), old(phys.ram), pmm.states, phys.ram, {})
    ensures r.Ok? ==> TableVerdict(data, table) == Fine
    ensures r.Err? ==> TableVerdict(data, table) == Refused
    ensures r.Ok? ==>
      && Describes(r.value, NonEmpty(table), phys, pmm) && Images(data, NonEmpty(table), pmm.states, phys.ram, maps)
      && (forall i :: 0 <= i < |r.value| ==>
         fresh(r.value[i].vmo) && r.value[i].vmo.Valid() && r.value[i].vmo.pages == maps[i])
    ensures Spent(old(pmm.states), pmm.states, Zone(pmm.home, PMM_ALLOC_FLAG_USER), PagesOf(NonEmpty(table)), r.Ok?,
                  r.Halt? && TableVerdict(data, table) != Panics)
  {
    hide Spent, Charged, Zone, PagesOf, Homes, Represents, ArenasOk, Images, Image, Backed, Preserves, LoadEffect,
      NonEmpty, LoadedTable, MemSize, PageCount, SegmentVerdict, TableVerdict, ProgramHeaderFits;
    ghost var s0, r0, user := pmm.states, phys.ram, Zone(pmm.home, PMM_ALLOC_FLAG_USER);
    var segments: seq<LoadedSegment> := [];
    ghost var phs: seq<ProgramHeader> := [];
    maps := [];
    LoadedNone(data, table, s0, r0, user);
    for idx := 0 to |table|
      invariant pmm.Valid() && pmm.states.Keys <= phys.ram.Keys
      invariant forall i :: 0 <= i < idx ==> SegmentVerdict(data, table[i]) == Fine
      invariant LoadedTable(data, table, idx, phs, s0, r0, pmm.states, phys.ram, maps, user)
      invariant Describes(segments, phs, phys, pmm) && |maps| == |phs|
      invariant forall i :: 0 <= i < |segments| ==>
        fresh(segments[i].vmo) && segments[i].vmo.pages == maps[i] && segments[i].vmo.size % 4096 == 0
    {
      var ph := table[idx];
      ghost var s, ram := pmm.states, phys.ram;
      LoadedTableParts(data, table, idx, phs, s0, r0, s, ram, maps, user);
      VerdictAt(data, table, idx);
      if ph.p_filesz > 0 {
        WrappedChecks(data, ph);
        var end := (ph.p_offset + ph.p_filesz) % WORD_LIMIT;
        if end > |data| {
          return Err("Segment extends beyond file size"), maps;
        }
        if ph.p_offset > end {
          return Halt, maps;
        }
      }
      FineOrRefused(data, ph);
      if MemSize(ph) > 0 {
        var loaded := LoadSegment(phys, pmm, data, ph);
        if loaded.Err? {
          RefusedNext(data, table, idx, phs, s0, r0, s, ram, maps, user, pmm.states, phys.ram);
          return Err(loaded.error), maps;
        }
        LoadedNext(data, table, idx, phs, s0, r0, s, ram, maps, user, pmm.states, phys.ram, loaded.Halt?);
        if !loaded.Ok? {
          return Halt, maps;
        }
        LoadedMore(data, table, idx, phs, s0, r0, s, ram, maps, user, pmm.states, phys.ram, loaded.value.pages);
        segments := segments + [LoadedSegment(ph.p_vaddr, MemSize(ph), loaded.value, ph.p_flags)];
        phs := phs + [ph];
        maps := maps + [loaded.value.pages];
      } else {
        LoadedSkip(data, table, idx, phs, s0, r0, s, ram, maps, user);
      }
    }
    VerdictAt(data, table, |table|);
    LoadedAll(data, table, phs, s0, r0, pmm.states, phys.ram, maps, user);
    forall i | 0 <= i < |segments|
      ensures segments[i].vmo.Valid()
    {
      ImageBacked(data, phs, pmm.states, phys.ram, maps, i);
    }
    return Ok(segments), maps;
  }

  /** The non-empty ones among the first `idx` entries are loaded and charged. */
  ghost predicate LoadedTable(data: seq<byte>, table: seq<ProgramHeader>, idx: nat, phs: seq<ProgramHeader>,
      s0: States, r0: Ram, s: States, r: Ram, maps: seq<PageMap>, zone: set<nat>)
    requires idx <= |table|
  {
    && phs == NonEmpty(table[..idx]) && Preserves(s0, r0, s, r, {})
    && Images(data, phs, s, r, maps) && Charged(s0, s, zone, PagesOf(phs), false)
  }

  lemma LoadedNone(data: seq<byte>, table: seq<ProgramHeader>, s: States, r: Ram, zone: set<nat>)
    ensures LoadedTable(data, table, 0, [], s, r, s, r, [], zone)
  {
    ChargedNothing(s, zone);
    NoImages(data, s, r);
    assert table[..0] == [];
  }

  lemma LoadedTableParts(data: seq<byte>, table: seq<ProgramHeader>, idx: nat, phs: seq<ProgramHeader>, s0: States,
      r0: Ram, s: States, r: Ram, maps: seq<PageMap>, zone: set<nat>)
    requires idx <= |table| && LoadedTable(data, table, idx, phs, s0, r0, s, r, maps, zone)
    ensures Preserves(s0, r0, s, r, {}) && Images(data, phs, s, r, maps) &&
      Spent(s0, s, zone, PagesOf(NonEmpty(table)), false, false)
  {
    hide Images;
  }

  /** One more segment is charged; if it halts, so would the whole table. */
  lemma LoadedNext(data: seq<byte>, table: seq<ProgramHeader>, idx: nat, phs: seq<ProgramHeader>, s0: States, r0: Ram,
      s: States, r: Ram, maps: seq<PageMap>, zone: set<nat>, s': States, r': Ram, halted: bool)
    requires idx < |table| && MemSize(table[idx]) > 0 && LoadedTable(data, table, idx, phs, s0, r0, s, r, maps, zone)
    requires Preserves(s, r, s', r', {}) && Charged(s, s', zone, PageCount(MemSize(table[idx])), halted)
    ensures Preserves(s0, r0, s', r', {}) && (s.Keys <= r.Keys ==> s'.Keys <= r'.Keys)
    ensures phs + [table[idx]] == NonEmpty(table[..idx + 1])
    ensures Charged(s0, s', zone, PagesOf(phs + [table[idx]]), halted)
    ensures halted ==> forall h :: Spent(s0, s', zone, PagesOf(NonEmpty(table)), false, h)
  {
    hide Images, Preserves, MemSize, PageCount;
    KeepPreserving(s0, r0, s, r, s', r');
    assert table[..idx + 1][..idx] == table[..idx];
    OneMore(phs, table[idx]);
    ChargedTrans(s0, s, s', zone, PagesOf(phs), PageCount(MemSize(table[idx])), halted);
    if halted {
      NonEmptyPages(table, idx + 1);
      ChargedMore(s0, s', zone, PagesOf(phs + [table[idx]]), PagesOf(NonEmpty(table)));
    }
  }

  /** A segment that is in the file is refused only for its size. */
  lemma FineOrRefused(data: seq<byte>, ph: ProgramHeader)
    requires InFile(data, ph) && |data| < SLICE_LIMIT
    ensures SegmentVerdict(data, ph) == Fine || SegmentVerdict(data, ph) == Refused
    ensures MemSize(ph) == 0 ==> SegmentVerdict(data, ph) == Fine
  {
  }

  lemma RefusedNext(data: seq<byte>, table: seq<ProgramHeader>, idx: nat, phs: seq<ProgramHeader>, s0: States, r0: Ram,
      s: States, r: Ram, maps: seq<PageMap>, zone: set<nat>, s': States, r': Ram)
    requires idx < |table| && LoadedTable(data, table, idx, phs, s0, r0, s, r, maps, zone)
    requires Preserves(s, r, s', r', {}) && Charged(s, s', zone, 0, false)
    ensures Preserves(s0, r0, s', r', {}) && Spent(s0, s', zone, PagesOf(NonEmpty(table)), false, false)
  {
    hide Images, Preserves, NonEmpty, PagesOf;
    KeepPreserving(s0, r0, s, r, s', r');
    ChargedTrans(s0, s, s', zone, PagesOf(phs), 0, false);
  }

  lemma LoadedMore(data: seq<byte>, table: seq<ProgramHeader>, idx: nat, phs: seq<ProgramHeader>, s0: States, r0: Ram,
      s: States, r: Ram, maps: seq<PageMap>, zone: set<nat>, s': States, r': Ram, pages: PageMap)
    requires idx < |table| && Images(data, phs, s, r, maps) && InFile(data, table[idx]) && |maps| == |phs|
    requires LoadEffect(s, r, s', r', pages) && Image(data, table[idx], MemSize(table[idx]), r', pages) &&
      Backed(r', s', pages)
    requires Preserves(s0, r0, s', r', {}) && phs + [table[idx]] == NonEmpty(table[..idx + 1])
    requires Charged(s0, s', zone, PagesOf(phs + [table[idx]]), false)
    ensures LoadedTable(data, table, idx + 1, phs + [table[idx]], s0, r0, s', r', maps + [pages], zone)
  {
    hide Images, Preserves, Charged, Image, Backed;
    ImagesAdd(data, phs, s, r, maps, table[idx], s', r', pages);
  }

  lemma LoadedSkip(data: seq<byte>, table: seq<ProgramHeader>, idx: nat, phs: seq<ProgramHeader>, s0: States, r0: Ram,
      s: States, r: Ram, maps: seq<PageMap>, zone: set<nat>)
    requires idx < |table| && MemSize(table[idx]) == 0 && LoadedTable(data, table, idx, phs, s0, r0, s, r, maps, zone)
    ensures LoadedTable(data, table, idx + 1, phs, s0, r0, s, r, maps, zone)
  {
    hide Images, Preserves, Charged, MemSize;
    assert table[..idx + 1][..idx] == table[..idx];
    assert NonEmpty(table[..idx]) + [] == NonEmpty(table[..idx]);
  }

  lemma LoadedAll(data: seq<byte>, table: seq<ProgramHeader>, phs: seq<ProgramHeader>, s0: States, r0: Ram, s: States,
      r: Ram, maps: seq<PageMap>, zone: set<nat>)
    requires LoadedTable(data, table, |table|, phs, s0, r0, s, r, maps, zone)
    ensures phs == NonEmpty(table) && Images(data, phs, s, r, maps) && Preserves(s0, r0, s, r, {})
    ensures Spent(s0, s, zone, PagesOf(phs), true, false)
  {
    hide Images, Preserves;
    assert table[..|table|] == table;
  }

  lemma NothingSpent(s: States, zone: set<nat>, need: nat)
    ensures Spent(s, s, zone, need, false, false)
  {
  }

  /** `FileVerdict` in the order of the checks. */
  lemma VerdictParts(data: seq<byte>)
    ensures !ParseElfHeader(data).Halt? && (ParseElfHeader(data).Err? ==> FileVerdict(data) == Refused)
    ensures ParseElfHeader(data).Ok? ==>
      var h := ParseElfHeader(data).value;
      && !ValidateElfHeader(h).Halt? && (ValidateElfHeader(h).Err? ==> FileVerdict(data) == Refused)
      && (ValidateElfHeader(h).Ok? ==>
            && h.e_phentsize >= 56 && h.e_phnum > 0
            && LoadTable(data) == Take16(Loads(HeadersAt(data, h.e_phoff, h.e_phentsize, h.e_phnum)))
            && FileVerdict(data) ==
                 if TablePanics(data, h.e_phoff, h.e_phentsize) then Panics else TableVerdict(data, LoadTable(data)))
  {
    hide HeadersAt, Loads, Take16, TablePanics, TableVerdict;
  }

  lemma LoadTableFits(data: seq<byte>)
    ensures forall i :: 0 <= i < |LoadTable(data)| ==> ProgramHeaderFits(LoadTable(data)[i])
  {
    hide HeadersAt, Loads, ProgramHeaderFits, ParseElfHeader;
    var h := ParseElfHeader(data);
    if h.Ok? && h.value.e_phentsize >= 56 {
      var hs := HeadersAt(data, h.value.e_phoff, h.value.e_phentsize, h.value.e_phnum);
      HeadersFit(data, h.value.e_phoff, h.value.e_phentsize, h.value.e_phnum);
      forall i | 0 <= i < |LoadTable(data)|
        ensures ProgramHeaderFits(LoadTable(data)[i])
      {
        assert LoadTable(data)[i] in Loads(hs);
        LoadsExact(hs, LoadTable(data)[i]);
      }
    }
  }

  /** A file is fine exactly when its header is accepted, its table and all its segments lie in
      the file without a wrap-around, and no segment's size wraps when it is rounded up. */
  lemma FineIff(data: seq<byte>)
    ensures FileVerdict(data) == Fine <==>
      && ParseElfHeader(data).Ok? && ValidateElfHeader(ParseElfHeader(data).value).Ok?
      && !TablePanics(data, ParseElfHeader(data).value.e_phoff, ParseElfHeader(data).value.e_phentsize)
      && forall i :: 0 <= i < |LoadTable(data)| ==>
         InFile(data, LoadTable(data)[i]) && MemSize(LoadTable(data)[i]) + 4096 <= WORD_LIMIT
  {
    hide ParseElfHeader, ValidateElfHeader, LoadTable, TablePanics, InFile, MemSize;
    FineTable(data, LoadTable(data));
  }

  lemma {:induction false} FineTable(data: seq<byte>, table: seq<ProgramHeader>)
    ensures TableVerdict(data, table) == Fine <==>
      forall i :: 0 <= i < |table| ==> InFile(data, table[i]) && MemSize(table[i]) + 4096 <= WORD_LIMIT
  {
    hide InFile, MemSize;
    if table != [] {
      FineTable(data, table[1..]);
      assert forall i :: 0 < i < |table| ==> table[i] == table[1..][i - 1];
    }
  }

  /** The pages that segments occupy together. */
  function PagesOf(phs: seq<ProgramHeader>): nat
  {
    if phs == [] then 0 else PagesOf(phs[..|phs| - 1]) + PageCount(MemSize(phs[|phs| - 1]))
  }

  lemma OneMore(phs: seq<ProgramHeader>, ph: ProgramHeader)
    ensures PagesOf(phs + [ph]) == PagesOf(phs) + PageCount(MemSize(ph))
  {
    assert (phs + [ph])[..|phs|] == phs;
  }

  lemma {:induction false} NonEmptyPages(hs: seq<ProgramHeader>, i: nat)
    requires i <= |hs|
    ensures PagesOf(NonEmpty(hs[..i])) <= PagesOf(NonEmpty(hs))
    decreases |hs|
  {
    if i < |hs| {
      var front := hs[..|hs| - 1];
      assert front[..i] == hs[..i];
      NonEmptyPages(front, i);
      if MemSize(hs[|hs| - 1]) > 0 {
        OneMore(NonEmpty(front), hs[|hs| - 1]);
      } else {
        assert NonEmpty(front) + [] == NonEmpty(front);
      }
    } else {
      assert hs[..i] == hs;
    }
  }

  lemma KeepPreserving(s0: States, r0: Ram, s1: States, r1: Ram, s2: States, r2: Ram)
    requires Preserves(s0, r0, s1, r1, {}) && Preserves(s1, r1, s2, r2, {})
    ensures Preserves(s0, r0, s2, r2, {}) && (s1.Keys <= r1.Keys ==> s2.Keys <= r2.Keys)
  {
    PreservesTrans(s0, r0, s1, r1, s2, r2, {}, {});
  }

  lemma NoImages(data: seq<byte>, s: States, ram: Ram)
    ensures Images(data, [], s, ram, [])
  {
  }

  lemma ImageBacked(data: seq<byte>, phs: seq<ProgramHeader>, s: States, ram: Ram, maps: seq<PageMap>, i: nat)
    requires Images(data, phs, s, ram, maps) && i < |phs|
    ensures Backed(ram, s, maps[i])
  {
  }
}
