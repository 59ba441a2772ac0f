/** The run queue of src/sched/state.rs: five ring buffers of 64 entries, one per priority.
    `levels` is the abstract value: for each priority, the queued entries oldest first. */
module RunQueues {
  import opened Memory

  datatype ThreadPriority = Idle | Low | Normal | High | Realtime

  datatype Entry = Entry(threadId: nat, priority: ThreadPriority, timeSlice: nat)

  const EMPTY_ENTRY := Entry(0, Idle, 0)

  function Rank(p: ThreadPriority): (r: nat)
    ensures r < 5
  {
    match p case Idle => 0 case Low => 1 case Normal => 2 case High => 3 case Realtime => 4
  }

  lemma RanksAscend()
    ensures Rank(Idle) < Rank(Low) < Rank(Normal) < Rank(High) < Rank(Realtime)
  {
  }

  type Levels = ls: seq<seq<Entry>> | |ls| == 5 witness [[], [], [], [], []]

  /** Queueing at the entry's own priority; a full level silently drops it. */
  function Enqueued(ls: Levels, e: Entry): Levels
  {
    if |ls[Rank(e.priority)]| < 64 then ls[Rank(e.priority) := ls[Rank(e.priority)] + [e]] else ls
  }

  /** Level `p` is the highest non-empty one. */
  predicate Highest(ls: Levels, p: nat)
  {
    p < 5 && ls[p] != [] && forall q :: p < q < 5 ==> ls[q] == []
  }

  predicate AllEmpty(ls: Levels)
  {
    forall p :: 0 <= p < 5 ==> ls[p] == []
  }

  /** Entry `k` of level `p` is the first one of the thread, levels searched from the lowest. */
  ghost predicate FirstOf(ls: Levels, id: nat, p: nat, k: nat)
  {
    && p < 5 && k < |ls[p]| && ls[p][k].threadId == id
    && (forall j :: 0 <= j < k ==> ls[p][j].threadId != id)
    && (forall q :: 0 <= q < p ==> Absent(ls[q], id))
  }

  predicate Absent(level: seq<Entry>, id: nat)
  {
    forall j :: 0 <= j < |level| ==> level[j].threadId != id
  }

  function Without(level: seq<Entry>, k: nat): (r: seq<Entry>)
    requires k < |level|
    ensures |r| == |level| - 1
    ensures forall j :: 0 <= j < |r| ==> r[j] == if j < k then level[j] else level[j + 1]
  {
    level[..k] + level[k + 1..]
  }

  // First in, first out

  datatype QueueOp = Push(e: Entry) | Pop

  /** What `Enqueue` and `Dequeue` do to the levels. */
  ghost predicate QueueStep(ls: Levels, op: QueueOp, ls': Levels)
  {
    match op
    case Push(e) => ls' == Enqueued(ls, e)
    case Pop => if AllEmpty(ls) then ls' == ls else exists p: nat :: Highest(ls, p) && ls' == ls[p := ls[p][1..]]
  }

  ghost predicate QueueRun(lss: seq<Levels>, ops: seq<QueueOp>)
  {
    |lss| == |ops| + 1 && forall i :: 0 <= i < |ops| ==> QueueStep(lss[i], ops[i], lss[i + 1])
  }

  /** What entered level `p` in the first `n` operations, in that order. */
  ghost function Entered(lss: seq<Levels>, ops: seq<QueueOp>, p: nat, n: nat): seq<Entry>
    requires n <= |ops| < |lss| && p < 5
  {
    if n == 0 then []
    else
      var i := n - 1;
      Entered(lss, ops, p, i) +
      if ops[i].Push? && Rank(ops[i].e.priority) == p && |lss[i][p]| < 64 then [ops[i].e] else []
  }

  /** What left it. */
  ghost function Left(lss: seq<Levels>, ops: seq<QueueOp>, p: nat, n: nat): seq<Entry>
    requires n <= |ops| < |lss| && p < 5
  {
    if n == 0 then []
    else
      var i := n - 1;
      Left(lss, ops, p, i) + if ops[i].Pop? && Highest(lss[i], p) then [lss[i][p][0]] else []
  }

  /** Over every run, what was in a level and what entered it is, in that order, what left it and
      what is still there. */
  lemma {:induction false} FirstInFirstOut(lss: seq<Levels>, ops: seq<QueueOp>, p: nat, n: nat)
    requires QueueRun(lss, ops) && p < 5 && n <= |ops|
    ensures lss[0][p] + Entered(lss, ops, p, n) == Left(lss, ops, p, n) + lss[n][p]
  {
    if n > 0 {
      FirstInFirstOut(lss, ops, p, n - 1);
      FifoStep(lss, ops, p, n - 1);
    }
  }

  lemma FifoStep(lss: seq<Levels>, ops: seq<QueueOp>, p: nat, i: nat)
    requires |lss| == |ops| + 1 && i < |ops| && p < 5 && QueueStep(lss[i], ops[i], lss[i + 1])
    requires lss[0][p] + Entered(lss, ops, p, i) == Left(lss, ops, p, i) + lss[i][p]
    ensures lss[0][p] + Entered(lss, ops, p, i + 1) == Left(lss, ops, p, i + 1) + lss[i + 1][p]
  {
    var ls, op := lss[i], ops[i];
    var came := if op.Push? && Rank(op.e.priority) == p && |ls[p]| < 64 then [op.e] else [];
    var went := if op.Pop? && Highest(ls, p) then [ls[p][0]] else [];
    LevelStep(ls, op, lss[i + 1], p, came, went);
    Regroup(lss[0][p], Entered(lss, ops, p, i), came, Left(lss, ops, p, i), ls[p], went, lss[i + 1][p]);
  }

  lemma LevelStep(ls: Levels, op: QueueOp, ls': Levels, p: nat, came: seq<Entry>, went: seq<Entry>)
    requires QueueStep(ls, op, ls') && p < 5
    requires came == if op.Push? && Rank(op.e.priority) == p && |ls[p]| < 64 then [op.e] else []
    requires went == if op.Pop? && Highest(ls, p) then [ls[p][0]] else []
    ensures ls[p] + came == went + ls'[p]
  {
    if op.Pop? && Highest(ls, p) {
      OneHighest(ls, p);
    }
  }

  lemma Regroup(start: seq<Entry>, a: seq<Entry>, came: seq<Entry>, b: seq<Entry>, level: seq<Entry>, went: seq<Entry>,
                level': seq<Entry>)
    requires start + a == b + level && level + came == went + level'
    ensures start + (a + came) == (b + went) + level'
  {
    assert start + (a + came) == (start + a) + came;
    assert (b + level) + came == b + (level + came);
    assert b + (went + level') == (b + went) + level';
  }

  lemma OneHighest(ls: Levels, p: nat)
    requires Highest(ls, p)
    ensures forall q: nat :: Highest(ls, q) ==> q == p
  {
  }

  // One ring

  function Slot(head: nat, k: nat): (s: nat)
    ensures s < 64
  {
    (head + k) % 64
  }

  /** The ring holds `level` from its head on. */
  ghost predicate Holds(row: seq<Entry>, head: nat, level: seq<Entry>)
  {
    |row| == 64 && |level| <= 64 && forall k :: 0 <= k < |level| ==> row[Slot(head, k)] == level[k]
  }

  /** Two positions of a ring are the same slot only if they are the same position. */
  lemma RingSlots(head: nat, j: nat, k: nat)
    requires j < 64 && k < 64 && Slot(head, j) == Slot(head, k)
    ensures j == k
  {
  }

  lemma PushHolds(row: seq<Entry>, head: nat, level: seq<Entry>, e: Entry)
    requires Holds(row, head, level) && |level| < 64
    ensures Holds(row[Slot(head, |level|) := e], head, level + [e])
  {
    hide Slot;
    forall k | 0 <= k < |level|
      ensures row[Slot(head, |level|) := e][Slot(head, k)] == level[k]
    {
      if Slot(head, k) == Slot(head, |level|) {
        RingSlots(head, k, |level|);
      }
    }
  }

  lemma PopHolds(row: seq<Entry>, head: nat, level: seq<Entry>)
    requires Holds(row, head, level) && level != []
    ensures row[Slot(head, 0)] == level[0] && Holds(row, head + 1, level[1..])
  {
    forall k | 0 <= k < |level[1..]|
      ensures row[Slot(head + 1, k)] == level[1..][k]
    {
      assert Slot(head + 1, k) == Slot(head, k + 1);
    }
  }

  /** The row after the entries `i + 1 .. j + 1` have moved down by one. */
  ghost predicate Shifted(row: seq<Entry>, head: nat, level: seq<Entry>, i: nat, j: nat)
  {
    && |row| == 64 && |level| <= 64
    && (forall k :: 0 <= k < |level| && (k < i || k >= j) ==> row[Slot(head, k)] == level[k])
    && (forall k :: i <= k < j && k + 1 < |level| ==> row[Slot(head, k)] == level[k + 1])
  }

  lemma ShiftOne(row: seq<Entry>, head: nat, level: seq<Entry>, i: nat, j: nat)
    requires Shifted(row, head, level, i, j) && i <= j && j + 1 < |level|
    ensures Shifted(row[Slot(head, j) := row[Slot(head, j + 1)]], head, level, i, j + 1)
  {
    hide Slot;
    var row' := row[Slot(head, j) := row[Slot(head, j + 1)]];
    forall k | 0 <= k < |level| && k != j
      ensures row'[Slot(head, k)] == row[Slot(head, k)]
    {
      if Slot(head, k) == Slot(head, j) {
        RingSlots(head, k, j);
      }
    }
  }

  lemma ShiftDone(row: seq<Entry>, head: nat, level: seq<Entry>, i: nat)
    requires i < |level| && Shifted(row, head, level, i, |level| - 1)
    ensures Holds(row, head, Without(level, i))
  {
    hide Slot;
  }

  class RunQueue {
    const queues: array<seq<Entry>>
    const heads: array<nat>
    const tails: array<nat>
    const counts: array<nat>
    var totalCount: nat
    ghost var levels: Levels

    ghost predicate Valid()
      reads this, queues, heads, tails, counts
    {
      && queues.Length == 5 && heads.Length == 5 && tails.Length == 5 && counts.Length == 5
      && heads != tails && heads != counts && tails != counts
      && (forall p :: 0 <= p < 5 ==>
            && counts[p] == |levels[p]| && tails[p] == heads[p] + counts[p]
            && Holds(queues[p], heads[p], levels[p]))
      && totalCount == counts[0] + counts[1] + counts[2] + counts[3] + counts[4]
    }

    /** The objects the queue is made of. */
    ghost function Repr(): set<object>
    {
      {this, queues, heads, tails, counts}
    }

    constructor ()
      ensures Valid() && fresh(queues) && fresh(heads) && fresh(tails) && fresh(counts)
      ensures levels == [[], [], [], [], []]
    {
      queues := new seq<Entry>[5](_ => seq(64, _ => EMPTY_ENTRY));
      heads := new nat[5](_ => 0);
      tails := new nat[5](_ => 0);
      counts := new nat[5](_ => 0);
      totalCount := 0;
      levels := [[], [], [], [], []];
    }

    method Enqueue(e: Entry)
      requires Valid()
      modifies Repr()
      ensures Valid() && levels == Enqueued(old(levels), e)
      ensures var p, n := Rank(e.priority), |old(levels)[Rank(e.priority)]|;
        if n >= 64 then levels == old(levels)
        else
          && |levels[p]| == n + 1 && levels[p][n] == e && (forall k :: 0 <= k < n ==> levels[p][k] == old(levels)[p][k])
          && forall q :: 0 <= q < 5 && q != p ==> levels[q] == old(levels)[q]
    {
      hide Holds, Slot;
      var p := Rank(e.priority);
      if counts[p] < 64 {
        PushHolds(queues[p], heads[p], levels[p], e);
        TailSlot(heads[p], counts[p], tails[p]);
        RowLength(queues[p], heads[p], levels[p]);
        queues[p] := queues[p][tails[p] % 64 := e];
        tails[p] := tails[p] + 1;
        counts[p] := counts[p] + 1;
        totalCount := totalCount + 1;
        levels := Enqueued(levels, e);
      }
    }

    /** Takes the oldest entry of the highest non-empty level. */
    method Dequeue() returns (r: Option<Entry>)
      requires Valid()
      modifies Repr()
      ensures Valid()
      ensures r.None? ==> AllEmpty(old(levels)) && levels == old(levels)
      ensures r.Some? ==> exists p: nat ::
        Highest(old(levels), p) && r.value == old(levels)[p][0] && levels == old(levels)[p := old(levels)[p][1..]]
    {
      hide Holds, Slot;
      var i := 5;
      while i > 0
        invariant 0 <= i <= 5 && Valid() && levels == old(levels)
        invariant forall q :: i <= q < 5 ==> levels[q] == []
      {
        i := i - 1;
        if counts[i] > 0 {
          PopHolds(queues[i], heads[i], levels[i]);
          TailSlot(heads[i], 0, heads[i]);
          RowLength(queues[i], heads[i], levels[i]);
          var entry := queues[i][heads[i] % 64];
          heads[i] := heads[i] + 1;
          counts[i] := counts[i] - 1;
          totalCount := totalCount - 1;
          assert Highest(levels, i);
          levels := levels[i := levels[i][1..]];
          return Some(entry);
        }
      }
      return None;
    }

    /** Deletes the first entry of the thread and closes the gap, keeping the order of the rest. */
    method Remove(id: nat) returns (found: bool)
      requires Valid()
      modifies Repr()
      ensures Valid()
      ensures !found ==> levels == old(levels) && forall p :: 0 <= p < 5 ==> Absent(levels[p], id)
      ensures found ==> exists p: nat, k: nat ::
        FirstOf(old(levels), id, p, k) && levels == old(levels)[p := Without(old(levels)[p], k)]
    {
      hide Slot;
      for p := 0 to 5
        invariant Valid() && levels == old(levels)
        invariant forall q :: 0 <= q < p ==> Absent(levels[q], id)
      {
        for i := 0 to counts[p]
          invariant Valid() && levels == old(levels)
          invariant forall j :: 0 <= j < i ==> levels[p][j].threadId != id
        {
          TailSlot(heads[p], i, heads[p] + i);
          if queues[p][(heads[p] + i) % 64].threadId == id {
            assert FirstOf(levels, id, p, i);
            CloseGap(p, i);
            return true;
          }
        }
      }
      return false;
    }

    /** The in-ring shift. */
    method CloseGap(p: nat, i: nat)
      requires Valid() && p < 5 && i < |levels[p]|
      modifies Repr()
      ensures Valid() && levels == old(levels)[p := Without(old(levels)[p], i)]
    {
      hide Holds, Shifted, Slot;
      var head, count := heads[p], counts[p];
      ShiftStart(queues[p], head, levels[p], i);
      for j := i to count - 1
        invariant unchanged(this) && unchanged(heads) && unchanged(tails) && unchanged(counts)
        invariant forall q :: 0 <= q < 5 && q != p ==> queues[q] == old(queues[q])
        invariant Shifted(queues[p], head, levels[p], i, j) && |queues[p]| == 64
      {
        ShiftOne(queues[p], head, levels[p], i, j);
        TailSlot(head, j, head + j);
        TailSlot(head, j + 1, head + j + 1);
        queues[p] := queues[p][(head + j) % 64 := queues[p][(head + j + 1) % 64]];
      }
      ShiftDone(queues[p], head, levels[p], i);
      tails[p] := tails[p] - 1;
      counts[p] := counts[p] - 1;
      totalCount := totalCount - 1;
      levels := levels[p := Without(levels[p], i)];
    }
  }

  lemma TailSlot(head: nat, k: nat, tail: nat)
    requires tail == head + k
    ensures tail % 64 == Slot(head, k)
  {
  }

  lemma RowLength(row: seq<Entry>, head: nat, level: seq<Entry>)
    requires Holds(row, head, level)
    ensures |row| == 64 && |level| <= 64
  {
  }

  lemma ShiftStart(row: seq<Entry>, head: nat, level: seq<Entry>, i: nat)
    requires Holds(row, head, level) && i < |level|
    ensures Shifted(row, head, level, i, i) && |row| == 64
  {
  }
}
