/** The thread scheduler as a state machine over threads, queue levels and the current thread
    (src/sched/scheduler.rs), and what every run of it conserves. */
module SchedulerSpec {
  import opened Memory
  import opened RunQueues

  datatype ThreadState = Ready | Running | Blocked | Terminated | Sleeping | BlockedOnMutex | BlockedOnCondvar

  datatype Thread = Thread(id: nat, state: ThreadState, priority: ThreadPriority,
                           scheduleCount: nat, voluntary: nat, involuntary: nat, timeSlice: nat)

  type Threads = map<nat, Thread>

  datatype Sched = Sched(threads: Threads, levels: Levels, current: Option<nat>)

  const DEFAULT_TIME_SLICE: nat := 10_000_000
  const MAX_THREADS: nat := 1024

  predicate Runnable(t: Thread)
  {
    t.state == Ready || t.state == Running
  }

  predicate Wakable(t: Thread)
  {
    t.state == Blocked || t.state == BlockedOnMutex || t.state == BlockedOnCondvar
  }

  function FreshThread(id: nat): Thread
  {
    Thread(id, Ready, Normal, 0, 0, 0, 0)
  }

  function EntryOf(t: Thread): Entry
  {
    Entry(t.id, t.priority, DEFAULT_TIME_SLICE)
  }

  // Transitions

  function Top(ls: Levels): (p: nat)
    requires !AllEmpty(ls)
    ensures Highest(ls, p)
  {
    if ls[4] != [] then 4 else if ls[3] != [] then 3 else if ls[2] != [] then 2 else if ls[1] != [] then 1 else 0
  }

  /** `enqueue_thread`. */
  function QueueThread(s: Sched, id: nat): Sched
  {
    if id in s.threads && Runnable(s.threads[id]) then s.(levels := Enqueued(s.levels, EntryOf(s.threads[id]))) else s
  }

  predicate CurrentRuns(s: Sched)
  {
    s.current.Some? && s.current.value in s.threads && s.threads[s.current.value].state == Running
  }

  /** The preempted thread becomes Ready and goes to the back of its level. */
  function Requeue(s: Sched): Sched
  {
    if CurrentRuns(s) then
      var t := s.threads[s.current.value].(state := Ready);
      s.(threads := s.threads[s.current.value := t], levels := Enqueued(s.levels, EntryOf(t)))
    else s
  }

  function RunEntry(s: Sched, e: Entry): Sched
  {
    var threads := if e.threadId in s.threads then
        var t := s.threads[e.threadId];
        s.threads[e.threadId := t.(state := Running, scheduleCount := t.scheduleCount + 1, timeSlice := e.timeSlice)]
      else s.threads;
    s.(threads := threads, current := Some(e.threadId))
  }

  /** `schedule`; `idle` is the id an idle thread would get. */
  function Schedule(s: Sched, idle: nat): (Sched, Option<nat>)
  {
    if !AllEmpty(s.levels) then
      var p := Top(s.levels);
      var e := s.levels[p][0];
      (RunEntry(Requeue(s.(levels := s.levels[p := s.levels[p][1..]])), e), Some(e.threadId))
    else if s.current.Some? then (s, s.current)
    else if |s.threads| >= MAX_THREADS then (s, None)
    else (QueueThread(s.(threads := s.threads[idle := FreshThread(idle)]), idle).(current := Some(idle)), Some(idle))
  }

  function AddThread(s: Sched, t: Thread): Sched
  {
    if |s.threads| >= MAX_THREADS then s else QueueThread(s.(threads := s.threads[t.id := t]), t.id)
  }

  /** The first entry of the thread is cut out of the queue. */
  ghost predicate Dequeued(ls: Levels, id: nat, ls': Levels)
  {
    if forall p :: 0 <= p < 5 ==> Absent(ls[p], id) then ls' == ls
    else exists p: nat, k: nat :: FirstOf(ls, id, p, k) && ls' == ls[p := Without(ls[p], k)]
  }

  ghost predicate RemoveThread(s: Sched, id: nat, s': Sched)
  {
    Dequeued(s.levels, id, s'.levels) && s'.threads == s.threads - {id} && s'.current == s.current
  }

  function BlockCurrent(s: Sched, st: ThreadState): Sched
  {
    if s.current.Some? && s.current.value in s.threads then
      var t := s.threads[s.current.value];
      s.(threads := s.threads[s.current.value := t.(state := st, involuntary := t.involuntary + 1)])
    else s
  }

  function YieldCurrent(s: Sched): Sched
  {
    if CurrentRuns(s) then
      var t := s.threads[s.current.value];
      s.(threads := s.threads[s.current.value := t.(state := Ready, voluntary := t.voluntary + 1)])
    else s
  }

  function Wake(s: Sched, id: nat): Sched
  {
    if id in s.threads && Wakable(s.threads[id]) then
      QueueThread(s.(threads := s.threads[id := s.threads[id].(state := Ready)]), id)
    else s
  }

  // What is conserved

  ghost function OfPriority(threads: Threads, p: ThreadPriority): set<nat>
  {
    set id | id in threads && threads[id].priority == p
  }

  ghost predicate Queued(ls: Levels, t: Thread)
  {
    exists k :: 0 <= k < |ls[Rank(t.priority)]| && ls[Rank(t.priority)][k].threadId == t.id
  }

  ghost predicate NotQueued(ls: Levels, id: nat)
  {
    forall p :: 0 <= p < 5 ==> Absent(ls[p], id)
  }

  ghost predicate ThreadsOk(threads: Threads)
  {
    forall id :: id in threads ==> threads[id].id == id
  }

  /** At most 64 threads of each priority. */
  ghost predicate FewPerLevel(threads: Threads)
  {
    forall p :: |OfPriority(threads, p)| <= 64
  }

  /** Entry `k` of level `p` names a Ready thread of that priority. */
  ghost predicate EntryOk(threads: Threads, ls: Levels, p: nat, k: nat)
    requires p < 5 && k < |ls[p]|
  {
    var id := ls[p][k].threadId;
    id in threads && threads[id].state == Ready && Rank(threads[id].priority) == p
  }

  ghost predicate Distinct(level: seq<Entry>)
  {
    forall j, k :: 0 <= j < k < |level| ==> level[j].threadId != level[k].threadId
  }

  /** Only Ready threads are queued, each at its own priority and at most once. */
  ghost predicate QueueOk(threads: Threads, ls: Levels)
  {
    && (forall p, k :: 0 <= p < 5 && 0 <= k < |ls[p]| ==> EntryOk(threads, ls, p, k))
    && (forall p :: 0 <= p < 5 ==> Distinct(ls[p]))
  }

  /** Every Ready thread is queued, except perhaps `except`. */
  ghost predicate Complete(threads: Threads, ls: Levels, except: Option<nat>)
  {
    forall id :: id in threads && threads[id].state == Ready && except != Some(id) ==> Queued(ls, threads[id])
  }

  ghost predicate OneRuns(s: Sched)
  {
    forall id :: id in s.threads && s.threads[id].state == Running ==> s.current == Some(id)
  }

  /** Each Ready thread is queued exactly once, no other thread is, and only the current
      thread runs. */
  ghost predicate Conserved(s: Sched)
  {
    ThreadsOk(s.threads) && QueueOk(s.threads, s.levels) && Complete(s.threads, s.levels, None) && OneRuns(s)
  }

  // Steps on the queue

  lemma UnqueuedIfNotReady(threads: Threads, ls: Levels, id: nat)
    requires QueueOk(threads, ls) && (id in threads ==> threads[id].state != Ready)
    ensures NotQueued(ls, id)
  {
    forall p, k | 0 <= p < 5 && 0 <= k < |ls[p]|
      ensures ls[p][k].threadId != id
    {
      assert EntryOk(threads, ls, p, k);
    }
  }

  lemma PopKeeps(threads: Threads, ls: Levels, p: nat)
    requires ThreadsOk(threads) && QueueOk(threads, ls) && Complete(threads, ls, None) && p < 5 && ls[p] != []
    ensures var e, ls' := ls[p][0], ls[p := ls[p][1..]];
      && QueueOk(threads, ls') && Complete(threads, ls', Some(e.threadId)) && NotQueued(ls', e.threadId)
      && e.threadId in threads && threads[e.threadId].state == Ready
  {
    var e, ls' := ls[p][0], ls[p := ls[p][1..]];
    assert EntryOk(threads, ls, p, 0);
    forall q, k | 0 <= q < 5 && 0 <= k < |ls'[q]|
      ensures EntryOk(threads, ls', q, k) && ls'[q][k].threadId != e.threadId
    {
      assert EntryOk(threads, ls, q, if q == p then k + 1 else k);
    }
    forall id | id in threads && threads[id].state == Ready && id != e.threadId
      ensures Queued(ls', threads[id])
    {
      var q := Rank(threads[id].priority);
      var k :| 0 <= k < |ls[q]| && ls[q][k].threadId == id;
      assert q == p ==> ls'[q][k - 1].threadId == id;
    }
  }

  /** A level never holds more entries than there are threads of its priority; so with at most 64
      of them a thread that is not queued always finds room. */
  lemma RoomInLevel(threads: Threads, ls: Levels, id: nat)
    requires FewPerLevel(threads) && QueueOk(threads, ls) && id in threads && NotQueued(ls, id)
    ensures |ls[Rank(threads[id].priority)]| < 64
  {
    var pr := threads[id].priority;
    var level := ls[Rank(pr)];
    var ids := Ids(level);
    DistinctIds(level);
    forall x | x in ids
      ensures x in OfPriority(threads, pr)
    {
      var k :| 0 <= k < |level| && level[k].threadId == x;
      assert EntryOk(threads, ls, Rank(pr), k);
      RankInjective(threads[x].priority, pr);
    }
    assert id !in ids;
    assert ids + {id} <= OfPriority(threads, pr);
    SubsetSize(ids + {id}, OfPriority(threads, pr));
  }

  lemma RankInjective(x: ThreadPriority, y: ThreadPriority)
    requires Rank(x) == Rank(y)
    ensures x == y
  {
  }

  ghost function Ids(level: seq<Entry>): set<nat>
  {
    set k | 0 <= k < |level| :: level[k].threadId
  }

  lemma {:induction false} DistinctIds(level: seq<Entry>)
    requires Distinct(level)
    ensures |Ids(level)| == |level|
  {
    if level == [] {
      assert Ids(level) == {};
    } else {
      var n := |level| - 1;
      DistinctIds(level[..n]);
      assert Ids(level) == Ids(level[..n]) + {level[n].threadId};
      assert level[n].threadId !in Ids(level[..n]);
    }
  }

  /** Queueing a Ready thread that is not queued yet, into a level with room. */
  lemma PushKeeps(threads: Threads, ls: Levels, id: nat, except: Option<nat>)
    requires ThreadsOk(threads) && QueueOk(threads, ls) && id in threads && threads[id].state == Ready &&
      NotQueued(ls, id)
    requires forall x :: x in threads && threads[x].state == Ready && x != id && except != Some(x) ==>
      Queued(ls, threads[x])
    requires |ls[Rank(threads[id].priority)]| < 64
    ensures var ls' := Enqueued(ls, EntryOf(threads[id]));
      QueueOk(threads, ls') && Complete(threads, ls', except) && forall x :: x != id && NotQueued(ls, x) ==>
        NotQueued(ls', x)
  {
    var p := Rank(threads[id].priority);
    var ls' := ls[p := ls[p] + [EntryOf(threads[id])]];
    assert ls' == Enqueued(ls, EntryOf(threads[id]));
    forall q, k | 0 <= q < 5 && 0 <= k < |ls'[q]|
      ensures EntryOk(threads, ls', q, k)
    {
      if q != p || k < |ls[p]| {
        assert EntryOk(threads, ls, q, k);
      }
    }
    assert Absent(ls[p], id);
    forall x | x in threads && threads[x].state == Ready && except != Some(x)
      ensures Queued(ls', threads[x])
    {
      if x == id {
        assert ls'[p][|ls[p]|].threadId == id;
      } else {
        var q := Rank(threads[x].priority);
        var k :| 0 <= k < |ls[q]| && ls[q][k].threadId == x;
        assert ls'[q][k].threadId == x;
      }
    }
    forall x | x != id && NotQueued(ls, x)
      ensures NotQueued(ls', x)
    {
      assert Absent(ls[p], x);
    }
  }

  /** Changing a thread that is not queued, other than its id and priority. */
  lemma ChangeKeeps(threads: Threads, ls: Levels, t: Thread)
    requires ThreadsOk(threads) && QueueOk(threads, ls) && t.id in threads && threads[t.id].priority == t.priority &&
      NotQueued(ls, t.id)
    ensures ThreadsOk(threads[t.id := t]) && QueueOk(threads[t.id := t], ls)
    ensures forall x :: x in threads && x != t.id && Queued(ls, threads[x]) ==> Queued(ls, threads[t.id := t][x])
  {
    var threads' := threads[t.id := t];
    forall p, k | 0 <= p < 5 && 0 <= k < |ls[p]|
      ensures EntryOk(threads', ls, p, k)
    {
      assert EntryOk(threads, ls, p, k) && Absent(ls[p], t.id);
    }
  }

  lemma AddedKeeps(threads: Threads, ls: Levels, t: Thread)
    requires ThreadsOk(threads) && QueueOk(threads, ls) && t.id !in threads
    ensures ThreadsOk(threads[t.id := t]) && QueueOk(threads[t.id := t], ls) && NotQueued(ls, t.id)
  {
    var threads' := threads[t.id := t];
    UnqueuedIfNotReady(threads, ls, t.id);
    forall p, k | 0 <= p < 5 && 0 <= k < |ls[p]|
      ensures EntryOk(threads', ls, p, k)
    {
      assert EntryOk(threads, ls, p, k) && Absent(ls[p], t.id);
    }
  }

  // When each operation conserves

  /** The level of the thread has a free slot. */
  predicate HasRoom(s: Sched, p: ThreadPriority)
  {
    |s.levels[Rank(p)]| < 64
  }

  /** There is room for the running thread once the next one has left the queue. */
  predicate RequeueRoom(s: Sched)
  {
    AllEmpty(s.levels) || !CurrentRuns(s) ||
    var p := Top(s.levels);
    HasRoom(s.(levels := s.levels[p := s.levels[p][1..]]), s.threads[s.current.value].priority)
  }

  /** An idle thread would get an id of its own. */
  ghost predicate IdleFresh(s: Sched, idle: nat)
  {
    AllEmpty(s.levels) && s.current.None? && |s.threads| < MAX_THREADS ==> idle !in s.threads
  }

  /** `schedule` conserves exactly when the thread it preempts finds room. */
  lemma ScheduleConservesIff(s: Sched, idle: nat)
    requires Conserved(s) && IdleFresh(s, idle)
    ensures Conserved(Schedule(s, idle).0) <==> RequeueRoom(s)
    ensures Schedule(s, idle).1.Some? ==> Schedule(s, idle).0.current == Schedule(s, idle).1
  {
    hide QueueOk, NotQueued, OneRuns;
    if !AllEmpty(s.levels) {
      var p := Top(s.levels);
      var e, ls := s.levels[p][0], s.levels[p := s.levels[p][1..]];
      PopKeeps(s.threads, s.levels, p);
      if RequeueRoom(s) {
        DispatchConserves(s, e, ls);
      } else {
        DispatchLoses(s, e, ls);
      }
    } else if s.current.None? && |s.threads| < MAX_THREADS {
      AddConserves(s, FreshThread(idle));
    }
  }

  /** A preempted thread whose level is full ends up Ready and in no queue. */
  lemma DispatchLoses(s: Sched, e: Entry, ls: Levels)
    requires ThreadsOk(s.threads) && QueueOk(s.threads, ls) && e.threadId in s.threads &&
      s.threads[e.threadId].state == Ready
    requires CurrentRuns(s) && !HasRoom(s.(levels := ls), s.threads[s.current.value].priority)
    ensures var s', c := RunEntry(Requeue(s.(levels := ls)), e), s.current.value;
      c in s'.threads && s'.threads[c].state == Ready && !Queued(s'.levels, s'.threads[c]) && !Conserved(s')
  {
    var s', c := RunEntry(Requeue(s.(levels := ls)), e), s.current.value;
    UnqueuedIfNotReady(s.threads, ls, c);
    assert s'.levels == ls && Absent(ls[Rank(s.threads[c].priority)], c);
  }

  lemma DispatchConserves(s: Sched, e: Entry, ls: Levels)
    requires ThreadsOk(s.threads) && OneRuns(s) && QueueOk(s.threads, ls) && Complete(s.threads, ls, Some(e.threadId))
    requires NotQueued(ls, e.threadId) && e.threadId in s.threads && s.threads[e.threadId].state == Ready
    requires CurrentRuns(s) ==> HasRoom(s.(levels := ls), s.threads[s.current.value].priority)
    ensures Conserved(RunEntry(Requeue(s.(levels := ls)), e))
  {
    hide QueueOk, ThreadsOk, NotQueued;
    var s1 := s.(levels := ls);
    var s2 := Requeue(s1);
    if CurrentRuns(s) {
      var c := s.current.value;
      var t := s.threads[c].(state := Ready);
      UnqueuedIfNotReady(s.threads, ls, c);
      IdKept(s.threads, c);
      ChangeKeeps(s.threads, ls, t);
      PushKeeps(s2.threads, ls, c, Some(e.threadId));
    }
    assert NotQueued(s2.levels, e.threadId);
    IdKept(s2.threads, e.threadId);
    var t := s2.threads[e.threadId];
    ChangeKeeps(s2.threads, s2.levels, t.(state := Running, scheduleCount := t.scheduleCount + 1,
      timeSlice := e.timeSlice));
  }

  lemma IdKept(threads: Threads, id: nat)
    requires ThreadsOk(threads) && id in threads
    ensures threads[id].id == id
  {
  }

  lemma AddConserves(s: Sched, t: Thread)
    requires Conserved(s) && t.id !in s.threads && t.state == Ready && HasRoom(s, t.priority)
    ensures Conserved(AddThread(s, t))
    ensures AllEmpty(s.levels) && s.current.None? ==> Conserved(AddThread(s, t).(current := Some(t.id)))
  {
    hide QueueOk, ThreadsOk, NotQueued;
    if |s.threads| < MAX_THREADS {
      AddedKeeps(s.threads, s.levels, t);
      PushKeeps(s.threads[t.id := t], s.levels, t.id, None);
    }
  }

  /** Adding a fresh Ready thread conserves exactly when its level has room. */
  lemma AddConservesIff(s: Sched, t: Thread)
    requires Conserved(s) && t.id !in s.threads && t.state == Ready && |s.threads| < MAX_THREADS
    ensures Conserved(AddThread(s, t)) <==> HasRoom(s, t.priority)
  {
    if HasRoom(s, t.priority) {
      AddConserves(s, t);
    } else {
      var s' := AddThread(s, t);
      UnqueuedIfNotReady(s.threads, s.levels, t.id);
      assert s'.levels == s.levels && Absent(s.levels[Rank(t.priority)], t.id) && !Queued(s'.levels, s'.threads[t.id]);
    }
  }

  /** The current thread is Ready and so in the queue, as an idle thread is when it is created. */
  predicate CurrentReady(s: Sched)
  {
    s.current.Some? && s.current.value in s.threads && s.threads[s.current.value].state == Ready
  }

  /** The current thread is the next one that `schedule` would take. */
  predicate CurrentIsNext(s: Sched)
  {
    !AllEmpty(s.levels) && s.current == Some(s.levels[Top(s.levels)][0].threadId)
  }

  /** Blocking conserves exactly when the current thread is not Ready, or is the next in the queue
      anyway, in which case it goes on running. */
  lemma BlockConservesIff(s: Sched, st: ThreadState, idle: nat)
    requires Conserved(s) && st != Ready && st != Running && IdleFresh(BlockCurrent(s, st), idle)
    ensures Conserved(Schedule(BlockCurrent(s, st), idle).0) <==> !CurrentReady(s) || CurrentIsNext(s)
  {
    hide Conserved, Schedule, BlockCurrent;
    if !CurrentReady(s) {
      BlockConserves(s, st, idle);
    } else if CurrentIsNext(s) {
      BlockRunsOn(s, st, idle);
    } else {
      BlockLeavesEntry(s, st, idle);
    }
  }

  lemma BlockConserves(s: Sched, st: ThreadState, idle: nat)
    requires Conserved(s) && !CurrentReady(s) && st != Ready && st != Running && IdleFresh(BlockCurrent(s, st), idle)
    ensures Conserved(BlockCurrent(s, st)) && Conserved(Schedule(BlockCurrent(s, st), idle).0)
  {
    if s.current.Some? && s.current.value in s.threads {
      var c := s.current.value;
      var t := s.threads[c];
      UnqueuedIfNotReady(s.threads, s.levels, c);
      ChangeKeeps(s.threads, s.levels, t.(state := st, involuntary := t.involuntary + 1));
    }
    ScheduleConservesIff(BlockCurrent(s, st), idle);
  }

  /** Taken out of the queue right away, the thread runs again. */
  lemma BlockRunsOn(s: Sched, st: ThreadState, idle: nat)
    requires Conserved(s) && CurrentReady(s) && CurrentIsNext(s) && st != Ready && st != Running
    ensures Conserved(Schedule(BlockCurrent(s, st), idle).0)
  {
    hide QueueOk, NotQueued;
    var c, p := s.current.value, Top(s.levels);
    var t, ls := s.threads[c], s.levels[p := s.levels[p][1..]];
    PopKeeps(s.threads, s.levels, p);
    var t' := t.(state := Running, involuntary := t.involuntary + 1, scheduleCount := t.scheduleCount + 1,
                 timeSlice := s.levels[p][0].timeSlice);
    ChangeKeeps(s.threads, ls, t');
    assert Schedule(BlockCurrent(s, st), idle).0 == Sched(s.threads[c := t'], ls, Some(c));
  }

  /** Otherwise a thread that is not Ready stays in the queue. */
  lemma BlockLeavesEntry(s: Sched, st: ThreadState, idle: nat)
    requires Conserved(s) && CurrentReady(s) && !CurrentIsNext(s) && st != Ready && st != Running
    ensures var s', c := Schedule(BlockCurrent(s, st), idle).0, s.current.value;
      c in s'.threads && s'.threads[c].state == st && Queued(s'.levels, s'.threads[c]) && !Conserved(s')
  {
    var s', c := Schedule(BlockCurrent(s, st), idle).0, s.current.value;
    var t := s.threads[c];
    assert Queued(s.levels, t);
    var q, p := Rank(t.priority), Top(s.levels);
    var k :| 0 <= k < |s.levels[q]| && s.levels[q][k].threadId == c;
    var j := if q == p then k - 1 else k;
    assert s'.levels[q][j].threadId == c;
    assert !EntryOk(s'.threads, s'.levels, q, j);
  }

  /** Waking a blocked thread conserves exactly when its level has room. */
  lemma WakeConservesIff(s: Sched, id: nat)
    requires Conserved(s) && id in s.threads && Wakable(s.threads[id])
    ensures Conserved(Wake(s, id)) <==> HasRoom(s, s.threads[id].priority)
  {
    hide QueueOk, NotQueued;
    var t := s.threads[id].(state := Ready);
    UnqueuedIfNotReady(s.threads, s.levels, id);
    ChangeKeeps(s.threads, s.levels, t);
    if HasRoom(s, t.priority) {
      PushKeeps(s.threads[id := t], s.levels, id, None);
    } else {
      NotQueuedAt(s.levels, t);
      assert Wake(s, id).levels == s.levels && Wake(s, id).threads[id] == t;
    }
  }

  lemma NotQueuedAt(ls: Levels, t: Thread)
    requires NotQueued(ls, t.id)
    ensures !Queued(ls, t)
  {
    assert Absent(ls[Rank(t.priority)], t.id);
  }

  /** Cutting out the only entry of a thread. */
  lemma CutKeeps(threads: Threads, ls: Levels, id: nat, p: nat, k: nat)
    requires ThreadsOk(threads) && QueueOk(threads, ls) && Complete(threads, ls, None) && FirstOf(ls, id, p, k)
    ensures var ls' := ls[p := Without(ls[p], k)];
      QueueOk(threads, ls') && Complete(threads, ls', Some(id)) && NotQueued(ls', id)
  {
    var ls' := ls[p := Without(ls[p], k)];
    assert EntryOk(threads, ls, p, k);
    forall q, j | 0 <= q < 5 && 0 <= j < |ls'[q]|
      ensures EntryOk(threads, ls', q, j) && ls'[q][j].threadId != id
    {
      var i := if q == p && j >= k then j + 1 else j;
      assert EntryOk(threads, ls, q, i) && ls'[q][j] == ls[q][i];
      assert q == p ==>
        (i < k ==> ls[p][i].threadId != ls[p][k].threadId) && (k < i ==> ls[p][k].threadId != ls[p][i].threadId);
    }
    forall x | x in threads && threads[x].state == Ready && x != id
      ensures Queued(ls', threads[x])
    {
      var q := Rank(threads[x].priority);
      var i :| 0 <= i < |ls[q]| && ls[q][i].threadId == x;
      var j := if q == p && i > k then i - 1 else i;
      assert ls'[q][j] == ls[q][i];
    }
    assert Distinct(ls'[p]) by {
      CutDistinct(ls[p], k);
    }
  }

  lemma CutDistinct(level: seq<Entry>, k: nat)
    requires Distinct(level) && k < |level|
    ensures Distinct(Without(level, k))
  {
    var cut := Without(level, k);
    assert forall j :: 0 <= j < |cut| ==> cut[j] == level[if j < k then j else j + 1];
  }

  lemma RemoveConserves(s: Sched, id: nat, s': Sched)
    requires Conserved(s) && RemoveThread(s, id, s')
    ensures Conserved(s')
  {
    if forall p :: 0 <= p < 5 ==> Absent(s.levels[p], id) {
      DropKeeps(s.threads, s.levels, id);
    } else {
      var p: nat, k: nat :| FirstOf(s.levels, id, p, k) && s'.levels == s.levels[p := Without(s.levels[p], k)];
      CutKeeps(s.threads, s.levels, id, p, k);
      DropKeeps(s.threads, s'.levels, id);
    }
  }

  lemma DropKeeps(threads: Threads, ls: Levels, id: nat)
    requires QueueOk(threads, ls) && Complete(threads, ls, Some(id)) && NotQueued(ls, id)
    ensures QueueOk(threads - {id}, ls) && Complete(threads - {id}, ls, None)
  {
    forall p, k | 0 <= p < 5 && 0 <= k < |ls[p]|
      ensures EntryOk(threads - {id}, ls, p, k)
    {
      assert EntryOk(threads, ls, p, k) && Absent(ls[p], id);
    }
  }

  /** The thread that is dispatched was Ready, and no Ready thread has a higher priority. */
  lemma HighestReadyRuns(s: Sched, idle: nat, id: nat)
    requires Conserved(s) && id in s.threads && s.threads[id].state == Ready
    ensures var (s', picked) := Schedule(s, idle);
      && picked.Some? && picked.value in s.threads && s.threads[picked.value].state == Ready
      && s'.threads[picked.value].state == Running && s'.current == picked
      && Rank(s.threads[id].priority) <= Rank(s.threads[picked.value].priority)
  {
    var t := s.threads[id];
    assert Queued(s.levels, t);
    assert s.levels[Rank(t.priority)] != [];
    var p := Top(s.levels);
    assert EntryOk(s.threads, s.levels, p, 0);
  }

  // What the operations do to the threads

  /** Everything `schedule` does to the threads: the one taken from the queue runs with a full time
      slice, a running one that it preempts is Ready, nobody else is touched; with an empty queue
      the current thread stays. */
  lemma ScheduleExact(s: Sched, idle: nat)
    requires Conserved(s)
    ensures var (s', picked) := Schedule(s, idle);
      if AllEmpty(s.levels) then s.current.Some? ==> s' == s && picked == s.current
      else
        && picked.Some? && picked.value in s.threads && s'.current == picked && s'.threads.Keys == s.threads.Keys
        && forall id :: id in s.threads ==>
             var t := s.threads[id];
             s'.threads[id] ==
               if picked == Some(id) then t.(state := Running, scheduleCount := t.scheduleCount + 1,
                 timeSlice := s.levels[Top(s.levels)][0].timeSlice)
               else if s.current == Some(id) && t.state == Running then t.(state := Ready) else t
  {
    if !AllEmpty(s.levels) {
      assert EntryOk(s.threads, s.levels, Top(s.levels), 0);
    }
  }

  /** With nothing to run and nobody current, an idle thread of Normal priority is made, Ready,
      queued and current. */
  lemma ScheduleIdle(s: Sched, idle: nat)
    requires AllEmpty(s.levels) && s.current.None? && |s.threads| < 1024
    ensures var (s', picked) := Schedule(s, idle);
      && picked == Some(idle) == s'.current && s'.threads == s.threads[idle := Thread(idle, Ready, Normal, 0, 0, 0, 0)]
      && |s'.levels[2]| == 1 && s'.levels[2][0] == Entry(idle, Normal, 10_000_000)
      && forall p :: 0 <= p < 5 && p != 2 ==> s'.levels[p] == []
  {
  }

  /** A running thread that is blocked has the state asked for, also when the next one runs. */
  lemma BlockExact(s: Sched, st: ThreadState, idle: nat)
    requires Conserved(s) && CurrentRuns(s) && st != Ready && st != Running
    ensures var s', c := Schedule(BlockCurrent(s, st), idle).0, s.current.value;
      && c in s'.threads
      && s'.threads[c] == s.threads[c].(state := st, involuntary := s.threads[c].involuntary + 1)
  {
    UnqueuedIfNotReady(s.threads, s.levels, s.current.value);
    if !AllEmpty(s.levels) {
      var p := Top(s.levels);
      assert EntryOk(s.threads, s.levels, p, 0) && Absent(s.levels[p], s.current.value);
    }
  }

  /** A woken thread is Ready; exactly the blocked ones can be woken, and nobody else is touched. */
  lemma WakeExact(s: Sched, id: nat)
    ensures id in s.threads && s.threads[id].state in {Blocked, BlockedOnMutex, BlockedOnCondvar} ==>
      Wake(s, id).threads == s.threads[id := s.threads[id].(state := Ready)]
    ensures id !in s.threads || s.threads[id].state !in {Blocked, BlockedOnMutex, BlockedOnCondvar} ==>
      Wake(s, id) == s
    ensures Wake(s, id).current == s.current
  {
  }

  /** An added thread is stored as it is, unless there are 1024. */
  lemma AddExact(s: Sched, t: Thread)
    ensures AddThread(s, t).threads == (if |s.threads| >= 1024 then s.threads else s.threads[t.id := t])
    ensures AddThread(s, t).current == s.current
  {
  }

  /** Entries made for threads carry their id, their priority and ten million as time slice. */
  lemma EntriesExact(s: Sched, id: nat)
    ensures
      id in s.threads && s.threads[id].state in {Ready, Running} && |s.levels[Rank(s.threads[id].priority)]| < 64 ==>
      var ls, r := QueueThread(s, id).levels, Rank(s.threads[id].priority);
      && ls[r] == s.levels[r] + [Entry(s.threads[id].id, s.threads[id].priority, 10_000_000)]
      && forall q :: 0 <= q < 5 && q != r ==> ls[q] == s.levels[q]
    ensures id !in s.threads || s.threads[id].state !in {Ready, Running} ==> QueueThread(s, id) == s
  {
  }

  /** A preempted thread goes behind everyone of its priority. */
  lemma PreemptedLast(s: Sched, idle: nat)
    requires Conserved(s) && CurrentRuns(s) && !AllEmpty(s.levels) && RequeueRoom(s)
    ensures var t, ls := s.threads[s.current.value], Schedule(s, idle).0.levels;
      var level := ls[Rank(t.priority)];
      level != [] && level[|level| - 1] == Entry(t.id, t.priority, 10_000_000)
  {
  }

  // Whole runs

  datatype Op =
    | AddOp(t: Thread)
    | RemoveOp(id: nat)
    | ScheduleOp(idle: nat)
    | BlockOp(st: ThreadState, idle: nat)
    | WakeOp(id: nat)
    | YieldOp(idle: nat)

  /** What callers owe: fresh ids, and a state to block in that is neither Ready nor Running. */
  ghost predicate Allowed(s: Sched, op: Op)
  {
    match op
    case AddOp(t) => t.id !in s.threads && t.state == Ready
    case RemoveOp(_) => true
    case ScheduleOp(idle) => IdleFresh(s, idle)
    case BlockOp(st, idle) => st != Ready && st != Running && IdleFresh(BlockCurrent(s, st), idle)
    case WakeOp(_) => true
    case YieldOp(idle) => IdleFresh(s, idle)
  }

  /** The operation queues nobody in a full level, makes no running thread yield and blocks no
      queued one. */
  ghost predicate Fits(s: Sched, op: Op)
  {
    match op
    case AddOp(t) => |s.threads| >= MAX_THREADS || HasRoom(s, t.priority)
    case RemoveOp(_) => true
    case ScheduleOp(_) => RequeueRoom(s)
    case BlockOp(_, _) => !CurrentReady(s) || CurrentIsNext(s)
    case WakeOp(id) => id !in s.threads || !Wakable(s.threads[id]) || HasRoom(s, s.threads[id].priority)
    case YieldOp(_) => !CurrentRuns(s)
  }

  ghost predicate Step(s: Sched, op: Op, s': Sched)
  {
    match op
    case AddOp(t) => s' == AddThread(s, t)
    case RemoveOp(id) => RemoveThread(s, id, s')
    case ScheduleOp(idle) => s' == Schedule(s, idle).0
    case BlockOp(st, idle) => s' == Schedule(BlockCurrent(s, st), idle).0
    case WakeOp(id) => s' == Wake(s, id)
    case YieldOp(idle) => s' == Schedule(YieldCurrent(s), idle).0
  }

  /** From a conserved state an operation conserves exactly when it fits. */
  lemma StepConservesIff(s: Sched, op: Op, s': Sched)
    requires Conserved(s) && Allowed(s, op) && Step(s, op, s')
    ensures Conserved(s') <==> Fits(s, op)
  {
    hide Conserved, RequeueRoom, HasRoom, Schedule;
    match op
    case AddOp(t) =>
      if |s.threads| < MAX_THREADS {
        AddConservesIff(s, t);
      }
    case RemoveOp(id) => RemoveConserves(s, id, s');
    case ScheduleOp(idle) => ScheduleConservesIff(s, idle);
    case BlockOp(st, idle) => BlockConservesIff(s, st, idle);
    case WakeOp(id) =>
      if id in s.threads && Wakable(s.threads[id]) {
        WakeConservesIff(s, id);
      }
    case YieldOp(idle) => YieldConservesIff(s, idle);
  }

  /** A run from the empty scheduler. */
  ghost predicate IsRun(ss: seq<Sched>, ops: seq<Op>)
  {
    && |ss| == |ops| + 1 && ss[0] == Sched(map[], [[], [], [], [], []], None)
    && forall j :: 0 <= j < |ops| ==> Allowed(ss[j], ops[j]) && Step(ss[j], ops[j], ss[j + 1])
  }

  /** In every run: each Ready thread is queued exactly once, no other thread is queued, and at
      most the current thread runs, as long as all operations fit; the first that does not fit
      ends this. */
  lemma {:induction false} RunConservesIff(ss: seq<Sched>, ops: seq<Op>, i: nat)
    requires IsRun(ss, ops) && i < |ss|
    ensures (forall j :: 0 <= j <= i ==> Conserved(ss[j])) <==> (forall j :: 0 <= j < i ==> Fits(ss[j], ops[j]))
  {
    hide Conserved, Fits;
    if i == 0 {
      EmptyConserved(ss[0]);
    } else {
      RunConservesIff(ss, ops, i - 1);
      if Conserved(ss[i - 1]) {
        StepConservesIff(ss[i - 1], ops[i - 1], ss[i]);
      }
    }
  }

  lemma EmptyConserved(s: Sched)
    requires s == Sched(map[], [[], [], [], [], []], None)
    ensures Conserved(s)
  {
  }

  /** A running thread yields, or a queued one that is not the next is blocked. */
  predicate Mishap(s: Sched, op: Op)
  {
    (op.YieldOp? && CurrentRuns(s)) || (op.BlockOp? && CurrentReady(s) && !CurrentIsNext(s))
  }

  lemma RequeueFits(s: Sched)
    requires Conserved(s) && FewPerLevel(s.threads) && CurrentRuns(s) && !AllEmpty(s.levels)
    ensures RequeueRoom(s)
  {
    hide FewPerLevel, QueueOk, Complete, OneRuns, ThreadsOk;
    var p := Top(s.levels);
    PopKeeps(s.threads, s.levels, p);
    UnqueuedIfNotReady(s.threads, s.levels[p := s.levels[p][1..]], s.current.value);
    RoomInLevel(s.threads, s.levels[p := s.levels[p][1..]], s.current.value);
  }

  /** With at most 64 threads of each priority everything else fits. */
  lemma FitsWhenFew(s: Sched, op: Op, s': Sched)
    requires Conserved(s) && Allowed(s, op) && Step(s, op, s') && FewPerLevel(s.threads) && FewPerLevel(s'.threads)
    ensures Fits(s, op) <==> !Mishap(s, op)
  {
    hide Schedule, BlockCurrent, YieldCurrent, Dequeued, FewPerLevel, QueueOk, Complete, OneRuns, CurrentIsNext,
      IdleFresh;
    match op
    case AddOp(t) =>
      if |s.threads| < MAX_THREADS {
        AddedKeeps(s.threads, s.levels, t);
        RoomInLevel(s'.threads, s.levels, t.id);
      }
    case RemoveOp(_) =>
    case ScheduleOp(_) =>
      if CurrentRuns(s) && !AllEmpty(s.levels) {
        RequeueFits(s);
      }
    case BlockOp(_, _) =>
    case WakeOp(id) =>
      if id in s.threads && Wakable(s.threads[id]) {
        UnqueuedIfNotReady(s.threads, s.levels, id);
        RoomInLevel(s.threads, s.levels, id);
      }
    case YieldOp(_) =>
  }

  /** So runs with at most 64 threads of each priority and without these two conserve. */
  lemma {:induction false} RunConserves(ss: seq<Sched>, ops: seq<Op>, i: nat)
    requires IsRun(ss, ops) && i < |ss|
    requires forall j :: 0 <= j <= i ==> FewPerLevel(ss[j].threads)
    requires forall j :: 0 <= j < i ==> !Mishap(ss[j], ops[j])
    ensures forall j :: 0 <= j <= i ==> Conserved(ss[j])
  {
    hide Conserved, FewPerLevel, Fits;
    if i == 0 {
      EmptyConserved(ss[0]);
    } else {
      RunConserves(ss, ops, i - 1);
      FitsWhenFew(ss[i - 1], ops[i - 1], ss[i]);
      StepConservesIff(ss[i - 1], ops[i - 1], ss[i]);
    }
  }

  // Taking turns

  /** Thread `id` waits at position `k` of level `p`. */
  predicate At(ls: Levels, p: nat, k: nat, id: nat)
  {
    p < 5 && k < |ls[p]| && ls[p][k].threadId == id
  }

  /** Nothing of higher priority waits. */
  predicate NothingAbove(ls: Levels, p: nat)
  {
    forall q :: p < q < 5 ==> ls[q] == []
  }

  /** Calls that end in `schedule`. */
  predicate Dispatches(op: Op)
  {
    op.ScheduleOp? || op.BlockOp? || op.YieldOp?
  }

  lemma ScheduleInTurn(s: Sched, idle: nat, p: nat, k: nat, id: nat)
    requires At(s.levels, p, k, id) && NothingAbove(s.levels, p)
    ensures var (s', picked) := Schedule(s, idle);
      if k == 0 then picked == Some(id) == s'.current else At(s'.levels, p, k - 1, id)
  {
    assert Top(s.levels) == p;
  }

  /** What one operation does to the place of a waiting thread: each dispatch moves it up by one
      and runs it from the front; removals of others can only move it up further. */
  lemma StepInTurn(s: Sched, op: Op, s': Sched, p: nat, k: nat, id: nat)
    requires At(s.levels, p, k, id) && NothingAbove(s.levels, p) && Step(s, op, s') && op != RemoveOp(id)
    ensures Dispatches(op) ==> if k == 0 then s'.current == Some(id) else At(s'.levels, p, k - 1, id)
    ensures op.AddOp? || op.WakeOp? ==> At(s'.levels, p, k, id)
    ensures op.RemoveOp? ==> At(s'.levels, p, k, id) || (k > 0 && At(s'.levels, p, k - 1, id))
  {
    hide Schedule;
    match op
    case AddOp(t) =>
    case RemoveOp(x) =>
      if !(forall q :: 0 <= q < 5 ==> Absent(s.levels[q], x)) {
        var q: nat, j: nat :| FirstOf(s.levels, x, q, j) && s'.levels == s.levels[q := Without(s.levels[q], j)];
        assert q == p && j < k ==> s'.levels[p][k - 1] == s.levels[p][k];
      }
    case ScheduleOp(idle) => ScheduleInTurn(s, idle, p, k, id);
    case BlockOp(st, idle) => ScheduleInTurn(BlockCurrent(s, st), idle, p, k, id);
    case WakeOp(x) =>
    case YieldOp(idle) => ScheduleInTurn(YieldCurrent(s), idle, p, k, id);
  }

  ghost function Dispatched(ops: seq<Op>, i: nat, j: nat): nat
    requires i <= j <= |ops|
    decreases j - i
  {
    if i == j then 0 else One(Dispatches(ops[i])) + Dispatched(ops, i + 1, j)
  }

  /** Threads of one priority take turns: as long as nothing of higher priority waits, the thread at
      position `k` is dispatched by the `k + 1`-th dispatch at the latest, and exactly then when no
      thread is removed meanwhile. */
  lemma {:induction false} InTurn(ss: seq<Sched>, ops: seq<Op>, i: nat, j: nat, p: nat, k: nat, id: nat)
      returns (m: nat)
    requires |ss| == |ops| + 1 && i <= j <= |ops| && At(ss[i].levels, p, k, id)
    requires forall n :: i <= n < j ==> Step(ss[n], ops[n], ss[n + 1])
    requires forall n :: i <= n < j ==> NothingAbove(ss[n].levels, p) && ops[n] != RemoveOp(id)
    requires Dispatched(ops, i, j) > k
    ensures i <= m < j && Dispatches(ops[m]) && ss[m + 1].current == Some(id) && Dispatched(ops, i, m) <= k
    ensures (forall n :: i <= n < j ==> !ops[n].RemoveOp?) ==> Dispatched(ops, i, m) == k
    decreases j - i
  {
    hide At, NothingAbove, Step;
    StepInTurn(ss[i], ops[i], ss[i + 1], p, k, id);
    if Dispatches(ops[i]) && k == 0 {
      m := i;
    } else if Dispatches(ops[i]) {
      m := InTurn(ss, ops, i + 1, j, p, k - 1, id);
    } else if At(ss[i + 1].levels, p, k, id) {
      m := InTurn(ss, ops, i + 1, j, p, k, id);
    } else {
      m := InTurn(ss, ops, i + 1, j, p, k - 1, id);
    }
  }

  /** The first n fresh threads, and their entries in order. */
  function Crowd(n: nat): (r: (Threads, seq<Entry>))
    ensures InLine(r.0, r.1, n) && n !in r.0 && |r.0| == n == |r.1|
  {
    if n == 0 then (map[], [])
    else
      var (threads, level) := Crowd(n - 1);
      (threads[n - 1 := FreshThread(n - 1)], level + [EntryOf(FreshThread(n - 1))])
  }

  ghost predicate InLine(threads: Threads, level: seq<Entry>, n: nat)
  {
    && |threads| == |level| == n
    && (forall id: nat :: id in threads <==> id < n) && (forall id :: id in threads ==> threads[id] == FreshThread(id))
    && (forall k :: 0 <= k < n ==> level[k] == EntryOf(FreshThread(k)))
  }

  lemma LineConserved(threads: Threads, level: seq<Entry>, n: nat)
    requires InLine(threads, level, n)
    ensures Conserved(Sched(threads, [[], [], level, [], []], None))
  {
    var ls: Levels := [[], [], level, [], []];
    forall p, k | 0 <= p < 5 && 0 <= k < |ls[p]|
      ensures EntryOk(threads, ls, p, k)
    {
      assert p == 2 && level[k] == EntryOf(FreshThread(k));
    }
    forall id | id in threads
      ensures Queued(ls, threads[id])
    {
      assert ls[Rank(threads[id].priority)][id].threadId == id;
    }
  }

  /** For instance: with n Ready threads of one priority, all queued, one more is queued when n is
      63 and lost when n is 64. */
  lemma CrowdExample(n: nat)
    requires n < MAX_THREADS
    ensures var (threads, level) := Crowd(n);
      var s := Sched(threads, [[], [], level, [], []], None);
      Conserved(s) && (Conserved(AddThread(s, FreshThread(n))) <==> n < 64)
  {
    hide Crowd, Conserved, AddThread, InLine;
    var (threads, level) := Crowd(n);
    var s := Sched(threads, [[], [], level, [], []], None);
    LineConserved(threads, level, n);
    AddConservesIff(s, FreshThread(n));
  }

  /** For instance: an idle thread is made and queued, a thread of High priority comes in, and the
      idle thread is blocked: it stays in the queue. */
  lemma BlockExample()
    ensures var s := AddThread(Schedule(Sched(map[], [[], [], [], [], []], None), 0).0,
      FreshThread(1).(priority := High));
      Conserved(s) && CurrentReady(s) && !CurrentIsNext(s) && !Conserved(Schedule(BlockCurrent(s, Blocked), 2).0)
  {
    hide Conserved;
    var s0 := Sched(map[], [[], [], [], [], []], None);
    var s1 := Schedule(s0, 0).0;
    EmptyConserved(s0);
    ScheduleConservesIff(s0, 0);
    var t := FreshThread(1).(priority := High);
    AddConservesIff(s1, t);
    BlockConservesIff(AddThread(s1, t), Blocked, 2);
  }

  // Yielding

  lemma StepOneRuns(s: Sched, op: Op, s': Sched)
    requires OneRuns(s) && Step(s, op, s') && (op.AddOp? ==> op.t.state != Running)
    ensures OneRuns(s')
  {
    hide Schedule, Dequeued, Enqueued;
    match op
    case AddOp(_) =>
    case RemoveOp(_) =>
    case ScheduleOp(idle) => ScheduleOneRuns(s, idle);
    case BlockOp(st, idle) => ScheduleOneRuns(BlockCurrent(s, st), idle);
    case WakeOp(_) =>
    case YieldOp(idle) => ScheduleOneRuns(YieldCurrent(s), idle);
  }

  lemma ScheduleOneRuns(s: Sched, idle: nat)
    requires OneRuns(s)
    ensures OneRuns(Schedule(s, idle).0)
  {
  }

  /** In every run, yields included and whatever the callers do, at most one thread is Running and
      it is the current one, as long as no thread is added as Running. */
  lemma {:induction false} RunOneRuns(ss: seq<Sched>, ops: seq<Op>, i: nat)
    requires |ss| == |ops| + 1 && ss[0] == Sched(map[], [[], [], [], [], []], None) && i < |ss|
    requires forall j :: 0 <= j < |ops| ==>
      Step(ss[j], ops[j], ss[j + 1]) && (ops[j].AddOp? ==> ops[j].t.state != Running)
    ensures OneRuns(ss[i])
  {
    if i > 0 {
      RunOneRuns(ss, ops, i - 1);
      StepOneRuns(ss[i - 1], ops[i - 1], ss[i]);
    }
  }

  /** `yield_cpu` marks the thread Ready before `schedule` looks for a Running one, so the thread
      is not queued again: a yield conserves exactly when there is no running thread to yield. */
  lemma YieldConservesIff(s: Sched, idle: nat)
    requires Conserved(s) && IdleFresh(s, idle)
    ensures Conserved(Schedule(YieldCurrent(s), idle).0) <==> !CurrentRuns(s)
  {
    if CurrentRuns(s) {
      YieldLoses(s, idle);
    } else {
      ScheduleConservesIff(s, idle);
    }
  }

  lemma YieldLoses(s: Sched, idle: nat)
    requires Conserved(s) && CurrentRuns(s)
    ensures var s', c := Schedule(YieldCurrent(s), idle).0, s.current.value;
      && c in s'.threads && s'.threads[c] == s.threads[c].(state := Ready, voluntary := s.threads[c].voluntary + 1)
      && !Queued(s'.levels, s'.threads[c])
  {
    var c := s.current.value;
    UnqueuedIfNotReady(s.threads, s.levels, c);
    if !AllEmpty(s.levels) {
      var p := Top(s.levels);
      assert EntryOk(s.threads, s.levels, p, 0);
    }
  }

  /** For instance: one thread running, one waiting; after the yield the first is in no queue. */
  lemma YieldExample()
    ensures var one, two := FreshThread(1).(state := Running), FreshThread(2);
      var s := Sched(map[1 := one, 2 := two], [[], [], [EntryOf(two)], [], []], Some(1));
      Conserved(s) && !Conserved(Schedule(YieldCurrent(s), 3).0)
  {
    var one, two := FreshThread(1).(state := Running), FreshThread(2);
    var s := Sched(map[1 := one, 2 := two], [[], [], [EntryOf(two)], [], []], Some(1));
    assert s.levels[Rank(two.priority)][0].threadId == two.id;
    assert Queued(s.levels, two);
    assert Conserved(s);
    YieldConservesIff(s, 3);
  }
}
