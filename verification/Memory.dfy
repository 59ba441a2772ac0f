/** Physical memory as page frames. A frame is 4096 bytes; page tables read the same
    bytes as 512 little-endian 64-bit words, so nothing in the model keeps a data page
    and a page table apart except the allocator's promise never to hand a page out twice. */
module Memory {

  const WORD_LIMIT: nat := 0x1_0000_0000_0000_0000

  type byte = x: int | 0 <= x < 256

  type Frame = f: seq<byte> | |f| == 4096 witness seq(4096, _ => 0)

  /** Frame base address to contents. */
  type Ram = map<nat, Frame>

  /** The machine's memory, shared by every kernel component. */
  class PhysMem {
    var ram: Ram

    constructor (ram: Ram)
      ensures this.ram == ram
    {
      this.ram := ram;
    }
  }

  datatype Option<+T> = None | Some(value: T)

  /** How a kernel operation ends: a value, an error it reports, or not at all: the endless loop
      the page allocator enters when no page of the requested kind is left, or a panic. */
  datatype Outcome<+T> = Ok(value: T) | Err(error: string) | Halt

  function Min(a: nat, b: nat): nat
  {
    if a <= b then a else b
  }

  /** 1 for true, 0 for false. */
  function One(b: bool): nat
  {
    if b then 1 else 0
  }

  lemma {:induction false} SubsetSize(x: set<nat>, y: set<nat>)
    requires x <= y
    ensures |x| <= |y| && (x != y ==> |x| < |y|)
  {
    assert y == x + (y - x);
    if x != y {
      var e :| e in y && e !in x;
      assert e in y - x;
    }
  }

  // Numbers in memory, byte by byte

  function Number2(b: seq<byte>, at: nat): nat
    requires at + 2 <= |b|
  {
    b[at] as nat + 0x100 * b[at + 1] as nat
  }

  function Number4(b: seq<byte>, at: nat): nat
    requires at + 4 <= |b|
  {
    Number2(b, at) + 0x1_0000 * Number2(b, at + 2)
  }

  function Number8(b: seq<byte>, at: nat): nat
    requires at + 8 <= |b|
  {
    Number4(b, at) + 0x1_0000_0000 * Number4(b, at + 4)
  }

  lemma LEBytes(b: seq<byte>, at: nat)
    ensures at + 2 <= |b| ==> FromLE(b[at..at + 2]) == Number2(b, at)
    ensures at + 4 <= |b| ==> FromLE(b[at..at + 4]) == Number4(b, at)
    ensures at + 8 <= |b| ==> FromLE(b[at..at + 8]) == Number8(b, at)
  {
    if at + 2 <= |b| {
      LENext(b, at, 2);
      LENext(b, at + 1, 1);
    }
    if at + 4 <= |b| {
      LEFour(b, at);
    }
    if at + 8 <= |b| {
      LEFour(b, at + 4);
      LENext(b, at, 8);
      LENext(b, at + 1, 7);
      LENext(b, at + 2, 6);
      LENext(b, at + 3, 5);
    }
  }

  lemma LEFour(b: seq<byte>, at: nat)
    requires at + 4 <= |b|
    ensures FromLE(b[at..at + 4]) == Number4(b, at)
  {
    LENext(b, at, 4);
    LENext(b, at + 1, 3);
    LENext(b, at + 2, 2);
    LENext(b, at + 3, 1);
  }

  lemma LENext(b: seq<byte>, at: nat, n: nat)
    requires at + n <= |b| && n > 0
    ensures FromLE(b[at..at + n]) == b[at] + 256 * FromLE(b[at + 1..at + 1 + (n - 1)])
    ensures n == 1 ==> FromLE(b[at..at + 1]) == b[at]
  {
    assert b[at..at + n][1..] == b[at + 1..at + 1 + (n - 1)];
  }

  // Subsequences

  /** `some` is `all` at the positions `ix`, in order. */
  ghost predicate Picks<T>(all: seq<T>, ix: seq<nat>, some: seq<T>)
  {
    && |ix| == |some| && (forall k :: 0 <= k < |ix| ==> ix[k] < |all| && some[k] == all[ix[k]])
    && Ascends(ix)
  }

  ghost predicate Ascends(ix: seq<nat>)
  {
    forall j, k :: 0 <= j < k < |ix| ==> ix[j] < ix[k]
  }

  lemma PicksAppend<T>(all: seq<T>, ix: seq<nat>, some: seq<T>, x: T, keep: bool)
    requires Picks(all, ix, some)
    ensures var ix' := ix + if keep then [|all|] else [];
      && Picks(all + [x], ix', some + if keep then [x] else [])
      && forall i :: i in ix' <==> i in ix || (keep && i == |all|)
  {
  }

  lemma PicksPrepend<T>(x: T, keep: bool, all: seq<T>, ix: seq<nat>, some: seq<T>) returns (ix': seq<nat>)
    requires Picks(all, ix, some)
    ensures Picks([x] + all, ix', (if keep then [x] else []) + some)
    ensures forall i: nat :: i in ix' <==> (keep && i == 0) || (i > 0 && i - 1 in ix)
  {
    var first, next := if keep then [0] else [], seq(|ix|, k requires 0 <= k < |ix| => ix[k] + 1);
    ix' := first + next;
    forall i: nat
      ensures i in ix' <==> (keep && i == 0) || (i > 0 && i - 1 in ix)
    {
      ShiftedIn(ix, next, i);
      assert i in ix' <==> i in first || i in next;
    }
  }

  lemma ShiftedIn(ix: seq<nat>, next: seq<nat>, i: nat)
    requires |next| == |ix| && forall k :: 0 <= k < |ix| ==> next[k] == ix[k] + 1
    ensures i in next <==> i > 0 && i - 1 in ix
  {
    if i > 0 && i - 1 in ix {
      var k :| 0 <= k < |ix| && ix[k] == i - 1;
      assert next[k] == i;
    }
  }

  /** A position of `all` is picked in the end if its place in `some` is. */
  lemma PickedThrough(ix: seq<nat>, jx: seq<nat>, kx: seq<nat>, m: nat)
    requires |kx| == |jx| && forall k :: 0 <= k < |jx| ==> jx[k] < |ix| && kx[k] == ix[jx[k]]
    requires m < |ix|
    ensures m in jx ==> ix[m] in kx
  {
    if m in jx {
      var k :| 0 <= k < |jx| && jx[k] == m;
      assert kx[k] == ix[m];
    }
  }

  lemma PicksTrans<T>(all: seq<T>, ix: seq<nat>, some: seq<T>, jx: seq<nat>, few: seq<T>) returns (kx: seq<nat>)
    requires Picks(all, ix, some) && Picks(some, jx, few)
    ensures Picks(all, kx, few) && |kx| == |jx| && forall k :: 0 <= k < |jx| ==> jx[k] < |ix| && kx[k] == ix[jx[k]]
  {
    kx := seq(|jx|, k requires 0 <= k < |jx| => ix[jx[k]]);
  }

  // Little-endian numbers

  function FromLE(b: seq<byte>): (w: nat)
  {
    if b == [] then 0 else b[0] + 256 * FromLE(b[1..])
  }

  function ToLE(w: nat, n: nat): (b: seq<byte>)
    ensures |b| == n
  {
    if n == 0 then [] else [w % 256] + ToLE(w / 256, n - 1)
  }

  function Pow256(n: nat): (p: nat)
    ensures p > 0
  {
    if n == 0 then 1 else 256 * Pow256(n - 1)
  }

  lemma {:induction false} LEBound(b: seq<byte>)
    ensures FromLE(b) < Pow256(|b|)
  {
    if b != [] {
      LEBound(b[1..]);
    }
  }

  lemma {:induction false} LERoundTrip(w: nat, n: nat)
    requires w < Pow256(n)
    ensures FromLE(ToLE(w, n)) == w
  {
    if n > 0 {
      LERoundTrip(w / 256, n - 1);
      assert ToLE(w, n)[1..] == ToLE(w / 256, n - 1);
    }
  }

  lemma {:induction false} LEInverse(b: seq<byte>)
    ensures ToLE(FromLE(b), |b|) == b
  {
    if b != [] {
      LEInverse(b[1..]);
      assert FromLE(b) % 256 == b[0] && FromLE(b) / 256 == FromLE(b[1..]);
    }
  }

  lemma Pow256Of8()
    ensures Pow256(8) == WORD_LIMIT
  {
    assert Pow256(4) == 0x1_0000_0000;
    assert Pow256(6) == 0x1_0000_0000_0000;
  }

  // Words of a frame

  /** Word `i` of a frame read as a page table. */
  function Word(f: Frame, i: nat): (w: nat)
    requires i < 512
    ensures w < WORD_LIMIT
  {
    LEBound(f[8 * i..8 * i + 8]);
    Pow256Of8();
    FromLE(f[8 * i..8 * i + 8])
  }

  function SetWord(f: Frame, i: nat, w: nat): (g: Frame)
    requires i < 512 && w < WORD_LIMIT
    ensures forall j :: 0 <= j < 512 ==> Word(g, j) == if j == i then w else Word(f, j)
  {
    var g: seq<byte> := f[..8 * i] + ToLE(w, 8) + f[8 * i + 8..];
    assert forall j :: 0 <= j < 512 ==> Word(g, j) == if j == i then w else Word(f, j) by {
      forall j | 0 <= j < 512
        ensures Word(g, j) == if j == i then w else Word(f, j)
      {
        WordAfterStore(f, i, w, j);
      }
    }
    g
  }

  lemma WordAfterStore(f: Frame, i: nat, w: nat, j: nat)
    requires i < 512 && w < WORD_LIMIT && j < 512
    ensures |f[..8 * i] + ToLE(w, 8) + f[8 * i + 8..]| == 4096
    ensures Word(f[..8 * i] + ToLE(w, 8) + f[8 * i + 8..], j) == if j == i then w else Word(f, j)
  {
    var g := f[..8 * i] + ToLE(w, 8) + f[8 * i + 8..];
    if j == i {
      assert g[8 * i..8 * i + 8] == ToLE(w, 8);
      Pow256Of8();
      LERoundTrip(w, 8);
    } else {
      assert g[8 * j..8 * j + 8] == f[8 * j..8 * j + 8];
    }
  }

  /** A store leaves the frame as it was exactly when it stores the word already there. */
  lemma StoreIsIdle(f: Frame, i: nat, w: nat)
    requires i < 512 && w < WORD_LIMIT
    ensures SetWord(f, i, w) == f <==> Word(f, i) == w
  {
    if Word(f, i) == w {
      LEInverse(f[8 * i..8 * i + 8]);
    }
  }

  /** `data` copied into a frame at byte `off`. */
  function Splice(f: Frame, off: nat, data: seq<byte>): (g: Frame)
    requires off + |data| <= 4096
    ensures forall k :: 0 <= k < 4096 ==>
      g[k] == if off <= k < off + |data| then data[k - off] else f[k]
  {
    f[..off] + data + f[off + |data|..]
  }
}
