/** The process table (src/process/table.rs) and the round-robin scheduler over it
    (src/sched/round_robin.rs): a cyclic scan by PID, and its fairness. */
module RoundRobin {
  import opened Memory

  datatype ProcessState = Ready | Running | Blocked | Zombie | Dead

  datatype Process = Process(pid: nat, ppid: nat, state: ProcessState)

  type Slots = s: seq<Option<Process>> | |s| == 256 witness seq(256, _ => None)

  predicate IsRunnable(st: ProcessState)
  {
    st == Ready || st == Running
  }

  predicate Runnable(slots: Slots, pid: nat)
  {
    pid < 256 && slots[pid].Some? && IsRunnable(slots[pid].value.state)
  }

  /** Where the scan starts: after the current process, or at 0. */
  function Start(current: Option<nat>): (s: nat)
    ensures s < 256
  {
    match current case None => 0 case Some(p) => (p + 1) % 256
  }

  /** How many steps the scan takes to reach a PID. */
  function Distance(current: Option<nat>, pid: nat): (d: nat)
    requires pid < 256
    ensures d < 256
  {
    if pid >= Start(current) then pid - Start(current) else pid + 256 - Start(current)
  }

  /** The pick is the runnable process nearest in cyclic PID order; there is none only when
      nothing is runnable. */
  ghost predicate IsNext(slots: Slots, current: Option<nat>, pick: Option<nat>)
  {
    match pick
    case None => forall p :: 0 <= p < 256 ==> !Runnable(slots, p)
    case Some(q) => Runnable(slots, q) && forall p :: 0 <= p < 256 && Runnable(slots, p) ==>
      Distance(current, q) <= Distance(current, p)
  }

  /** The first pick, exactly: a scan without a current process starts at PID 0, one with a current
      process behind it, and goes up and around; runnable are the Ready and the Running. */
  lemma NextExact(slots: Slots, current: Option<nat>, pick: nat)
    requires IsNext(slots, current, Some(pick)) && (current.Some? ==> current.value < 256)
    ensures pick < 256 && slots[pick].Some? && slots[pick].value.state in {Ready, Running}
    ensures var from := if current.None? then 0 else current.value + 1;
      forall p :: 0 <= p < 256 && slots[p].Some? && slots[p].value.state in {Ready, Running} ==>
        if pick >= from then p < from || p >= pick else p < from && p >= pick
  {
    forall p | 0 <= p < 256 && slots[p].Some? && slots[p].value.state in {Ready, Running}
      ensures Distance(current, pick) <= Distance(current, p)
    {
      assert Runnable(slots, p);
    }
  }

  lemma NoneExact(slots: Slots, current: Option<nat>)
    requires IsNext(slots, current, None)
    ensures forall p :: 0 <= p < 256 && slots[p].Some? ==> slots[p].value.state in {Blocked, Zombie, Dead}
  {
    forall p | 0 <= p < 256 && slots[p].Some?
      ensures slots[p].value.state in {Blocked, Zombie, Dead}
    {
      assert !Runnable(slots, p);
    }
  }

  lemma DistanceInjective(current: Option<nat>, p: nat, q: nat)
    requires p < 256 && q < 256 && Distance(current, p) == Distance(current, q)
    ensures p == q
  {
  }

  /** Seen from a process passed earlier in the scan, the distance is what is left of it. */
  lemma DistanceFrom(current: Option<nat>, q: nat, p: nat)
    requires p < 256 && q < 256
    ensures Distance(current, q) < Distance(current, p) ==>
      Distance(Some(q), p) == Distance(current, p) - Distance(current, q) - 1
    ensures Distance(current, p) <= Distance(current, q) ==>
      Distance(Some(q), p) == 255 - (Distance(current, q) - Distance(current, p))
  {
  }

  // What one call does

  function WithState(slots: Slots, pid: nat, st: ProcessState): Slots
  {
    if pid < 256 && slots[pid].Some? then slots[pid := Some(slots[pid].value.(state := st))] else slots
  }

  function Demoted(slots: Slots, current: Option<nat>): Slots
  {
    if current.Some? && current.value < 256 && slots[current.value].Some? && slots[current.value].value.state == Running
    then WithState(slots, current.value, Ready) else slots
  }

  /** One `schedule` call: the running process becomes Ready, the pick becomes Running. */
  ghost predicate ScheduleStep(slots: Slots, current: Option<nat>, pick: Option<nat>, slots': Slots,
      current': Option<nat>)
  {
    && IsNext(slots, current, pick)
    && match pick
       case None => slots' == Demoted(slots, current) && current' == current
       case Some(p) => slots' == WithState(Demoted(slots, current), p, Running) && current' == pick
  }

  lemma DemotedRunnable(slots: Slots, current: Option<nat>, p: nat)
    ensures Runnable(Demoted(slots, current), p) <==> Runnable(slots, p)
  {
  }

  /** A call never changes which processes are runnable. */
  lemma StepKeepsRunnable(slots: Slots, current: Option<nat>, pick: Option<nat>, slots': Slots, current': Option<nat>,
      p: nat)
    requires ScheduleStep(slots, current, pick, slots', current')
    ensures Runnable(slots', p) <==> Runnable(slots, p)
  {
    DemotedRunnable(slots, current, p);
  }

  /** At most the process at the scan position is Running. */
  ghost predicate OneRunning(slots: Slots, current: Option<nat>)
  {
    forall p :: 0 <= p < 256 && slots[p].Some? && slots[p].value.state == Running ==> current == Some(p)
  }

  /** After a call that picks a process, exactly that one is Running; no process is lost, and only
      the states of the pick and of its predecessor change. */
  lemma StepRunsPick(slots: Slots, current: Option<nat>, pick: Option<nat>, slots': Slots, current': Option<nat>)
    requires ScheduleStep(slots, current, pick, slots', current') && OneRunning(slots, current)
    ensures OneRunning(slots', current')
    ensures pick.Some? ==> pick.value < 256 && slots'[pick.value].Some? && slots'[pick.value].value.state == Running
    ensures forall p :: 0 <= p < 256 ==>
      && (slots'[p].Some? <==> slots[p].Some?)
      && (slots[p].Some? ==> slots'[p].value.(state := slots[p].value.state) == slots[p].value)
      && (pick != Some(p) && current != Some(p) ==> slots'[p] == slots[p])
  {
  }

  class ProcessTable {
    var processes: Slots
    var current: Option<nat>
    var nextPid: nat

    constructor ()
      ensures current == None && nextPid == 1 && forall i :: 0 <= i < 256 ==> processes[i].None?
    {
      processes := seq(256, _ => None);
      current := None;
      nextPid := 1;
    }

    /** The next unused PID at or above `nextPid`; PIDs below it are never handed out again. */
    method AllocPid() returns (r: Option<nat>)
      modifies this`nextPid
      ensures r.Some? ==>
        && old(nextPid) <= r.value < 256 && processes[r.value].None? && nextPid == r.value + 1
        && (forall p :: old(nextPid) <= p < r.value ==> processes[p].Some?)
      ensures r.None? ==> nextPid >= 256 && (forall p :: old(nextPid) <= p < 256 ==> processes[p].Some?)
    {
      var start := nextPid;
      while true
        invariant start <= nextPid && (nextPid <= 256 || nextPid == start)
        invariant forall p :: start <= p < nextPid && p < 256 ==> processes[p].Some?
        decreases 256 - nextPid
      {
        if nextPid >= 256 {
          return None;
        }
        var pid := nextPid;
        nextPid := nextPid + 1;
        if processes[pid].None? {
          return Some(pid);
        }
        if nextPid == start {
          assert false;
        }
      }
    }

    /** Panics, as in the source, are preconditions: the PID is in range and unused. */
    method Insert(p: Process)
      requires p.pid < 256 && processes[p.pid].None?
      modifies this`processes
      ensures processes == old(processes)[p.pid := Some(p)]
    {
      processes := processes[p.pid := Some(p)];
    }

    method Remove(pid: nat) returns (r: Option<Process>)
      modifies this`processes, this`current
      ensures pid >= 256 ==> r.None? && processes == old(processes) && current == old(current)
      ensures pid < 256 ==> r == old(processes)[pid] && processes == old(processes)[pid := None]
      ensures pid < 256 ==> current == if old(current) == Some(pid) then None else old(current)
    {
      if pid >= 256 {
        return None;
      }
      if current == Some(pid) {
        current := None;
      }
      r := processes[pid];
      processes := processes[pid := None];
    }

    /** The cyclic scan. */
    method FindNextRunnable(currentPid: Option<nat>) returns (r: Option<nat>)
      ensures IsNext(processes, currentPid, r)
    {
      var start := Start(currentPid);
      var pid := start;
      ghost var i := 0;
      while true
        invariant 0 <= i < 256 && pid < 256 && Distance(currentPid, pid) == i
        invariant forall p :: 0 <= p < 256 && Distance(currentPid, p) < i ==> !Runnable(processes, p)
        decreases 256 - i
      {
        if Runnable(processes, pid) {
          return Some(pid);
        }
        forall p | 0 <= p < 256 && Distance(currentPid, p) == i
          ensures !Runnable(processes, p)
        {
          DistanceInjective(currentPid, p, pid);
        }
        pid := (pid + 1) % 256;
        if pid == start {
          return None;
        }
        i := i + 1;
      }
    }

    method SetState(pid: nat, st: ProcessState)
      modifies this`processes
      ensures processes == WithState(old(processes), pid, st)
    {
      if pid < 256 && processes[pid].Some? {
        processes := processes[pid := Some(processes[pid].value.(state := st))];
      }
    }
  }

  class RoundRobinScheduler {
    var current: Option<nat>

    constructor ()
      ensures current == None
    {
      current := None;
    }

    method Schedule(table: ProcessTable) returns (r: Option<nat>)
      modifies this, table`processes, table`current
      ensures ScheduleStep(old(table.processes), old(current), r, table.processes, current)
      ensures table.current == if r.Some? then r else old(table.current)
    {
      if current.Some? && current.value < 256 && table.processes[current.value].Some?
         && table.processes[current.value].value.state == Running {
        table.SetState(current.value, Ready);
      }
      r := table.FindNextRunnable(current);
      SameNext(old(table.processes), table.processes, current, r);
      if r.Some? {
        current := r;
        table.current := r;
        table.SetState(r.value, Running);
      }
    }

    /** A leaving process hands the scan position to PID 0. */
    method RemoveProcess(pid: nat)
      modifies this
      ensures current == if old(current) == Some(pid) then Some(0) else old(current)
    {
      if current == Some(pid) {
        current := Some(0);
      }
    }
  }

  lemma SameNext(slots: Slots, slots': Slots, current: Option<nat>, pick: Option<nat>)
    requires IsNext(slots', current, pick) && slots' == Demoted(slots, current)
    ensures IsNext(slots, current, pick)
  {
    forall p
      ensures Runnable(slots', p) <==> Runnable(slots, p)
    {
      DemotedRunnable(slots, current, p);
    }
  }

  // Fairness

  /** A `schedule` call with what it picked, or a `remove_process` call. */
  datatype Event = Call(pick: Option<nat>) | Leave(pid: nat)

  /** What an event does to the scan position. */
  ghost predicate Moves(slots: Slots, current: Option<nat>, e: Event, current': Option<nat>)
  {
    match e
    case Call(pick) => IsNext(slots, current, pick) && current' == if pick.Some? then pick else current
    case Leave(pid) => current' == if current == Some(pid) then Some(0) else current
  }

  /** A run: event `i` sees the table `tables[i]` and moves the scan position from `currents[i]`
      to `currents[i + 1]`. Between events the table may change arbitrarily. */
  ghost predicate IsRun(tables: seq<Slots>, currents: seq<Option<nat>>, events: seq<Event>)
  {
    && |tables| == |events| && |currents| == |events| + 1
    && (forall i :: 0 <= i < |events| ==> Moves(tables[i], currents[i], events[i], currents[i + 1]))
  }

  /** Removing the current process puts `p` further away exactly when the scan had already got
      past PID 0 and not yet to `p`. */
  predicate SetBack(current: Option<nat>, e: Event, p: nat)
  {
    e.Leave? && current == Some(e.pid) && var c := e.pid % 256; c > 0 && (p == 0 || p > c)
  }

  lemma SetBackIff(slots: Slots, current: Option<nat>, e: Event, current': Option<nat>, p: nat)
    requires e.Leave? && Moves(slots, current, e, current') && p < 256
    ensures Distance(current', p) > Distance(current, p) <==> SetBack(current, e, p)
  {
  }

  /** `schedule` calls from event `i` on. */
  function Calls(events: seq<Event>, i: nat): nat
    decreases |events| - i
  {
    if i >= |events| then 0 else One(events[i].Call?) + Calls(events, i + 1)
  }

  /** Removals of the current process from event `i` on. */
  function Removals(currents: seq<Option<nat>>, events: seq<Event>, i: nat): nat
    requires |currents| == |events| + 1
    decreases |events| - i
  {
    if i >= |events| then 0
    else One(events[i].Leave? && currents[i] == Some(events[i].pid)) + Removals(currents, events, i + 1)
  }

  /** Those among them that put `p` further away. */
  function SetBacks(currents: seq<Option<nat>>, events: seq<Event>, i: nat, p: nat): (n: nat)
    requires |currents| == |events| + 1
    ensures n <= Removals(currents, events, i)
    decreases |events| - i
  {
    if i >= |events| then 0 else One(SetBack(currents[i], events[i], p)) + SetBacks(currents, events, i + 1, p)
  }

  /** Bounded waiting: a process that stays runnable is passed by in at most as many calls as its
      cyclic distance, plus 256 for every removal that sets it back. */
  lemma {:induction false} BoundedWaiting(tables: seq<Slots>, currents: seq<Option<nat>>, events: seq<Event>, i: nat,
      p: nat)
      returns (k: nat)
    requires IsRun(tables, currents, events) && i <= |events| && p < 256
    requires forall j :: i <= j < |events| ==> Runnable(tables[j], p)
    requires Distance(currents[i], p) + 256 * SetBacks(currents, events, i, p) < Calls(events, i)
    ensures i <= k < |events| && events[k] == Call(Some(p))
    ensures Calls(events, i) - Calls(events, k) <= Distance(currents[i], p) + 256 * SetBacks(currents, events, i, p)
    decreases |events| - i
  {
    assert Moves(tables[i], currents[i], events[i], currents[i + 1]);
    if events[i] == Call(Some(p)) {
      k := i;
    } else {
      if events[i].Call? {
        CallCloser(tables[i], currents[i], events[i].pick, p);
      } else {
        SetBackIff(tables[i], currents[i], events[i], currents[i + 1], p);
      }
      k := BoundedWaiting(tables, currents, events, i + 1, p);
    }
  }

  /** A call that passes a runnable process by brings the scan closer to it. */
  lemma CallCloser(slots: Slots, current: Option<nat>, pick: Option<nat>, p: nat)
    requires IsNext(slots, current, pick) && p < 256 && Runnable(slots, p) && pick != Some(p)
    ensures pick.Some? && Distance(pick, p) < Distance(current, p)
  {
    var q := pick.value;
    if Distance(current, q) == Distance(current, p) {
      DistanceInjective(current, q, p);
    }
    DistanceFrom(current, q, p);
  }

  /** So with r removals of the current process, within 256 * (r + 1) calls. */
  lemma PickedInTime(tables: seq<Slots>, currents: seq<Option<nat>>, events: seq<Event>, p: nat)
    requires IsRun(tables, currents, events) && p < 256
    requires forall j :: 0 <= j < |events| ==> Runnable(tables[j], p)
    requires Calls(events, 0) >= 256 * (Removals(currents, events, 0) + 1)
    ensures Call(Some(p)) in events
  {
    var k := BoundedWaiting(tables, currents, events, 0, p);
  }

  /** A PID is never handed out again, so a process leaves only once. */
  predicate LeaveOnce(events: seq<Event>)
  {
    forall i, j :: 0 <= i < j < |events| && events[i].Leave? && events[j].Leave? ==> events[i].pid != events[j].pid
  }

  /** The processes that leave from event `i` on. */
  function Leavers(events: seq<Event>, i: nat): set<nat>
    requires i <= |events|
  {
    set j | i <= j < |events| && events[j].Leave? :: events[j].pid
  }

  lemma {:induction false} RemovalsAreLeavers(currents: seq<Option<nat>>, events: seq<Event>, i: nat)
    requires |currents| == |events| + 1 && LeaveOnce(events) && i <= |events|
    ensures Removals(currents, events, i) <= |Leavers(events, i)|
    decreases |events| - i
  {
    if i < |events| {
      RemovalsAreLeavers(currents, events, i + 1);
      var rest := Leavers(events, i + 1);
      if events[i].Leave? {
        assert events[i].pid !in rest;
        assert Leavers(events, i) == rest + {events[i].pid};
      } else {
        assert Leavers(events, i) == rest;
      }
    }
  }

  /** The PIDs below `n`. */
  function Below(n: nat): (r: set<nat>)
    ensures |r| == n && forall q: nat :: q in r <==> q < n
  {
    if n == 0 then {} else Below(n - 1) + {n - 1}
  }

  lemma LeaversFew(events: seq<Event>, p: nat, n: nat)
    requires p < n && p !in Leavers(events, 0) && forall q :: q in Leavers(events, 0) ==> q < n
    ensures |Leavers(events, 0)| < n
  {
    hide Leavers, Below;
    assert p in Below(n);
    SubsetSize(Leavers(events, 0), Below(n));
  }

  /** So when every process leaves at most once, a process that stays runnable is picked within
      256 * 256 calls, whatever else happens. */
  lemma PickedAfterAll(tables: seq<Slots>, currents: seq<Option<nat>>, events: seq<Event>, p: nat)
    requires IsRun(tables, currents, events) && p < 256 && LeaveOnce(events) && Calls(events, 0) >= 256 * 256
    requires forall j :: 0 <= j < |events| ==>
      Runnable(tables[j], p) && (events[j].Leave? ==> events[j].pid < 256 && events[j].pid != p)
    ensures Call(Some(p)) in events
  {
    hide Moves, Runnable, Calls, Removals, LeaveOnce;
    RemovalsAreLeavers(currents, events, 0);
    assert p !in Leavers(events, 0);
    LeaversFew(events, p, 256);
    PickedInTime(tables, currents, events, p);
  }

  /** PIDs 1 and 6 runnable, nothing else. */
  function TwoReady(): Slots
  {
    var none: seq<Option<Process>> := seq(256, _ => None);
    none[1 := Some(Process(1, 0, Ready))][6 := Some(Process(6, 0, Ready))]
  }

  /** For instance: after 5 it is the turn of 6, but when 5 is removed, 1 comes first. */
  lemma RemovalExample()
    ensures IsNext(TwoReady(), Some(5), Some(6)) && SetBack(Some(5), Leave(5), 6)
    ensures Moves(TwoReady(), Some(5), Leave(5), Some(0)) && IsNext(TwoReady(), Some(0), Some(1))
  {
  }

  /** And where one process is removed again and again no number of calls suffices: removing 1
      after every time it is picked keeps 6 waiting for any number of calls. */
  lemma {:induction false} RemovalsStarve(n: nat) returns (currents: seq<Option<nat>>, events: seq<Event>)
    ensures |currents| == |events| + 1 && IsRun(seq(|events|, _ => TwoReady()), currents, events)
    ensures currents[0] == Some(0) && Calls(events, 0) == n && Call(Some(6)) !in events && Runnable(TwoReady(), 6)
  {
    currents, events := [Some(0)], [];
    if n > 0 {
      var cs, es := RemovalsStarve(n - 1);
      currents, events := [Some(0), Some(1)] + cs, [Call(Some(1)), Leave(1)] + es;
      CallsBehind(events, es, 0);
      RemovalExample();
      var tables := seq(|events|, _ => TwoReady());
      forall i | 0 <= i < |events|
        ensures Moves(tables[i], currents[i], events[i], currents[i + 1])
      {
        if i >= 2 {
          assert Moves(seq(|es|, _ => TwoReady())[i - 2], cs[i - 2], es[i - 2], cs[i - 1]);
        }
      }
    }
  }

  lemma {:induction false} CallsBehind(events: seq<Event>, es: seq<Event>, i: nat)
    requires |events| == |es| + 2 && events[2..] == es && i <= |es|
    ensures Calls(events, i + 2) == Calls(es, i)
    decreases |es| - i
  {
    if i < |es| {
      assert events[i + 2] == es[i];
      CallsBehind(events, es, i + 1);
    }
  }

  // One round over a fixed set of runnable processes

  ghost function RunnableSet(slots: Slots): set<nat>
  {
    set p | 0 <= p < 256 && Runnable(slots, p)
  }

  /** `IsNext` in terms of the set of runnable processes. */
  ghost predicate Nearest(ready: set<nat>, current: Option<nat>, q: nat)
    requires Pids(ready)
  {
    q in ready && forall p :: p in ready ==> Distance(current, q) <= Distance(current, p)
  }

  ghost predicate Pids(ready: set<nat>)
  {
    forall p :: p in ready ==> p < 256
  }

  /** The members the scan from `current` meets up to `q`. */
  ghost function Upto(ready: set<nat>, current: Option<nat>, q: nat): set<nat>
    requires Pids(ready) && q < 256
  {
    set p | p in ready && Distance(current, p) <= Distance(current, q)
  }

  /** Where the scan stands before pick `j`. */
  ghost function Before(current: Option<nat>, picks: seq<nat>, j: nat): Option<nat>
    requires j < |picks|
  {
    if j == 0 then current else Some(picks[j - 1])
  }

  /** Successive picks out of one set, the first one from `current`. */
  ghost predicate Chain(ready: set<nat>, current: Option<nat>, picks: seq<nat>)
    requires Pids(ready)
  {
    forall j :: 0 <= j < |picks| ==> Nearest(ready, Before(current, picks, j), picks[j])
  }

  lemma ChainFront(ready: set<nat>, current: Option<nat>, picks: seq<nat>)
    requires Pids(ready) && Chain(ready, current, picks) && 1 < |picks|
    ensures Chain(ready, current, picks[..|picks| - 1])
    ensures picks[|picks| - 2] in ready && picks[|picks| - 1] in ready &&
      Nearest(ready, Some(picks[|picks| - 2]), picks[|picks| - 1])
  {
    var front := picks[..|picks| - 1];
    forall j | 0 <= j < |front|
      ensures Nearest(ready, Before(current, front, j), front[j])
    {
      assert Nearest(ready, Before(current, picks, j), picks[j]);
      assert Before(current, front, j) == Before(current, picks, j);
    }
    assert Nearest(ready, Before(current, picks, |picks| - 1), picks[|picks| - 1]);
    assert Nearest(ready, Before(current, picks, |picks| - 2), picks[|picks| - 2]);
  }

  lemma FirstOfRound(ready: set<nat>, current: Option<nat>, picks: seq<nat>)
    requires Pids(ready) && Chain(ready, current, picks) && |picks| == 1
    ensures picks[0] in ready && Upto(ready, current, picks[0]) == {picks[0]} && Ascending(ready, current, picks)
  {
    var q := picks[0];
    assert Nearest(ready, Before(current, picks, 0), q);
    forall p | p in Upto(ready, current, q)
      ensures p == q
    {
      DistanceInjective(current, p, q);
    }
  }

  /** The pick after `q` is the next one of the same round, while any are left. */
  lemma NextInRound(ready: set<nat>, current: Option<nat>, q: nat, r: nat)
    requires Pids(ready) && q in ready && Nearest(ready, Some(q), r) && Upto(ready, current, q) != ready
    ensures Distance(current, q) < Distance(current, r)
    ensures Upto(ready, current, r) == Upto(ready, current, q) + {r} && r !in Upto(ready, current, q)
  {
    var x :| x in ready && x !in Upto(ready, current, q);
    DistanceFrom(current, q, x);
    DistanceFrom(current, q, r);
    forall p | p in ready
      ensures Distance(current, p) <= Distance(current, r) <==> p == r || Distance(current, p) <= Distance(current, q)
    {
      DistanceFrom(current, q, p);
      if Distance(current, p) == Distance(current, r) {
        DistanceInjective(current, p, r);
      }
    }
  }

  /** The first n picks are exactly the n members the scan meets first, in its order. */
  lemma {:induction false} RoundPrefix(ready: set<nat>, current: Option<nat>, picks: seq<nat>)
    requires Pids(ready) && Chain(ready, current, picks) && 0 < |picks| <= |ready|
    ensures picks[|picks| - 1] in ready && Ascending(ready, current, picks)
    ensures forall p :: p in Upto(ready, current, picks[|picks| - 1]) ==> p in picks
    ensures |Upto(ready, current, picks[|picks| - 1])| == |picks|
    decreases |picks|
  {
    hide Distance, Upto, Chain, Ascending, Before, Nearest;
    var last := |picks| - 1;
    if last == 0 {
      FirstOfRound(ready, current, picks);
    } else {
      var front, q, r := picks[..last], picks[last - 1], picks[last];
      ChainFront(ready, current, picks);
      RoundPrefix(ready, current, front);
      NextInRound(ready, current, q, r);
      assert picks == front + [r];
      AscendingOne(ready, current, front, r);
    }
  }

  ghost predicate Ascending(ready: set<nat>, current: Option<nat>, picks: seq<nat>)
    requires Pids(ready)
  {
    && (forall j :: 0 <= j < |picks| ==> picks[j] in ready)
    && (forall j, l :: 0 <= j < l < |picks| ==> Distance(current, picks[j]) < Distance(current, picks[l]))
  }

  lemma AscendingOne(ready: set<nat>, current: Option<nat>, picks: seq<nat>, r: nat)
    requires Pids(ready) && Ascending(ready, current, picks) && |picks| > 0 && r in ready
    requires Distance(current, picks[|picks| - 1]) < Distance(current, r)
    ensures Ascending(ready, current, picks + [r])
  {
    hide Distance;
    var picks' := picks + [r];
    forall j, l | 0 <= j < l < |picks'|
      ensures Distance(current, picks'[j]) < Distance(current, picks'[l])
    {
      if l == |picks| && j < |picks| - 1 {
        assert Distance(current, picks[j]) < Distance(current, picks[|picks| - 1]);
      }
    }
  }

  /** With a fixed set of k runnable processes, any k successive calls pick each of them exactly
      once, in cyclic PID order from the scan position. */
  lemma OneRound(tables: seq<Slots>, currents: seq<Option<nat>>, picks: seq<Option<nat>>, ready: set<nat>)
    requires IsRun(tables, currents, AsCalls(picks)) && |picks| == |ready| > 0 && Pids(ready)
    requires forall j :: 0 <= j < |tables| ==> RunnableSet(tables[j]) == ready
    ensures forall j :: 0 <= j < |picks| ==> picks[j].Some?
    ensures Ascending(ready, currents[0], Picked(picks))
    ensures forall p :: p in ready ==> p in Picked(picks)
  {
    hide Distance, Runnable, IsNext;
    forall j | 0 <= j < |picks|
      ensures picks[j].Some? && Nearest(ready, currents[j], picks[j].value) && currents[j + 1] == picks[j]
    {
      assert RunnableSet(tables[j]) == ready;
      assert Moves(tables[j], currents[j], AsCalls(picks)[j], currents[j + 1]);
      PickIsNearest(tables[j], currents[j], picks[j]);
    }
    var pids := Picked(picks);
    forall j | 0 <= j < |pids|
      ensures Nearest(ready, Before(currents[0], pids, j), pids[j])
    {
      assert Before(currents[0], pids, j) == currents[j];
    }
    RoundPrefix(ready, currents[0], pids);
    EverybodyPicked(ready, currents[0], pids);
  }

  /** A run of calls only. */
  ghost function AsCalls(picks: seq<Option<nat>>): (events: seq<Event>)
    ensures |events| == |picks| && forall j :: 0 <= j < |picks| ==> events[j] == Call(picks[j])
  {
    seq(|picks|, j requires 0 <= j < |picks| => Call(picks[j]))
  }

  ghost function Picked(picks: seq<Option<nat>>): (pids: seq<nat>)
    requires forall j :: 0 <= j < |picks| ==> picks[j].Some?
    ensures |pids| == |picks| && forall j :: 0 <= j < |picks| ==> picks[j] == Some(pids[j])
  {
    seq(|picks|, j requires 0 <= j < |picks| => picks[j].value)
  }

  lemma PickIsNearest(slots: Slots, current: Option<nat>, pick: Option<nat>)
    requires IsNext(slots, current, pick) && RunnableSet(slots) != {}
    ensures pick.Some? && Nearest(RunnableSet(slots), current, pick.value)
  {
    var x :| x in RunnableSet(slots);
  }

  lemma EverybodyPicked(ready: set<nat>, current: Option<nat>, picks: seq<nat>)
    requires Pids(ready) && Chain(ready, current, picks) && 0 < |picks| == |ready|
    ensures forall p :: p in ready ==> p in picks
  {
    RoundPrefix(ready, current, picks);
    var met := Upto(ready, current, picks[|picks| - 1]);
    if met != ready {
      SubsetSize(met, ready);
    }
  }
}
