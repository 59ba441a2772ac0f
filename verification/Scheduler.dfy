/** The thread scheduler of src/sched/scheduler.rs: a table of 1024 thread slots, the current
    thread and the run queue, each operation proved against the state machine of SchedulerSpec. */
module Schedulers {
  import opened Memory
  import opened RunQueues
  import opened SchedulerSpec

  type Slots = s: seq<Option<Thread>> | |s| == 1024 witness seq(1024, _ => None)

  /** `slot` finds every thread by its id; no two threads share one. */
  ghost predicate SlotsOk(threads: Slots, slot: map<nat, nat>)
  {
    && (forall id :: id in slot ==> slot[id] < 1024 && threads[slot[id]].Some? && threads[slot[id]].value.id == id)
    && (forall i :: 0 <= i < 1024 && threads[i].Some? ==> threads[i].value.id in slot && slot[threads[i].value.id] == i)
  }

  ghost function ToMap(threads: Slots, slot: map<nat, nat>): (m: Threads)
    requires SlotsOk(threads, slot)
    ensures m.Keys == slot.Keys
  {
    map id | id in slot :: threads[slot[id]].value
  }

  lemma SetThread(threads: Slots, slot: map<nat, nat>, t: Thread)
    requires SlotsOk(threads, slot) && t.id in slot
    ensures SlotsOk(threads[slot[t.id] := Some(t)], slot)
    ensures ToMap(threads[slot[t.id] := Some(t)], slot) == ToMap(threads, slot)[t.id := t]
  {
  }

  lemma PutThread(threads: Slots, slot: map<nat, nat>, i: nat, t: Thread)
    requires SlotsOk(threads, slot) && t.id !in slot && i < 1024 && threads[i].None?
    ensures SlotsOk(threads[i := Some(t)], slot[t.id := i])
    ensures ToMap(threads[i := Some(t)], slot[t.id := i]) == ToMap(threads, slot)[t.id := t]
  {
    var slot' := slot[t.id := i];
    forall id | id in slot'
      ensures slot'[id] < 1024 && threads[i := Some(t)][slot'[id]].Some? &&
        threads[i := Some(t)][slot'[id]].value.id == id
    {
    }
  }

  lemma TakeThread(threads: Slots, slot: map<nat, nat>, id: nat)
    requires SlotsOk(threads, slot) && id in slot
    ensures SlotsOk(threads[slot[id] := None], slot - {id}) && |(slot - {id}).Keys| == |slot.Keys| - 1
    ensures ToMap(threads[slot[id] := None], slot - {id}) == ToMap(threads, slot) - {id}
  {
    assert (slot - {id}).Keys == slot.Keys - {id};
  }

  /** A table without a free slot holds 1024 threads. */
  lemma FullTable(threads: Slots, slot: map<nat, nat>)
    requires SlotsOk(threads, slot) && forall i :: 0 <= i < 1024 ==> threads[i].Some?
    ensures |slot.Keys| == 1024
  {
    IdsOfPrefix(threads, slot, 1024);
    forall id | id in slot
      ensures id in PrefixIds(threads, 1024)
    {
      assert threads[slot[id]].value.id == id;
    }
    assert PrefixIds(threads, 1024) == slot.Keys;
  }

  ghost function PrefixIds(threads: Slots, n: nat): set<nat>
    requires n <= 1024
  {
    set i | 0 <= i < n && threads[i].Some? :: threads[i].value.id
  }

  lemma {:induction false} IdsOfPrefix(threads: Slots, slot: map<nat, nat>, n: nat)
    requires SlotsOk(threads, slot) && n <= 1024 && forall i :: 0 <= i < n ==> threads[i].Some?
    ensures |PrefixIds(threads, n)| == n && PrefixIds(threads, n) <= slot.Keys
  {
    if n == 0 {
      assert PrefixIds(threads, 0) == {};
    } else {
      IdsOfPrefix(threads, slot, n - 1);
      var id := threads[n - 1].value.id;
      assert PrefixIds(threads, n) == PrefixIds(threads, n - 1) + {id};
      assert id !in PrefixIds(threads, n - 1);
    }
  }

  lemma FirstIsPresent(ls: Levels, id: nat)
    ensures forall p: nat, k: nat :: FirstOf(ls, id, p, k) ==> p < 5 && !Absent(ls[p], id)
  {
  }

  class Scheduler {
    const runQueue: RunQueue
    var currentThread: Option<nat>
    var threads: Slots
    var threadCount: nat
    ghost var slot: map<nat, nat>

    ghost predicate Valid()
      reads this, runQueue, runQueue.Repr()
    {
      && runQueue.Valid()
      && SlotsOk(threads, slot)
      && threadCount == |slot.Keys|
    }

    /** The state the specification speaks of. */
    ghost function View(): Sched
      reads this, runQueue, runQueue.Repr()
      requires Valid()
    {
      Sched(ToMap(threads, slot), runQueue.levels, currentThread)
    }

    constructor ()
      ensures Valid() && fresh(runQueue) && fresh(runQueue.Repr())
      ensures View() == Sched(map[], [[], [], [], [], []], None)
    {
      runQueue := new RunQueue();
      currentThread := None;
      threads := seq(1024, _ => None);
      threadCount := 0;
      slot := map[];
    }

    /** `get_thread`: the slot of a thread, by a scan over the table. */
    method FindThread(id: nat) returns (r: Option<nat>)
      requires Valid()
      ensures if id in slot then r == Some(slot[id]) else r == None
      ensures r.Some? <==> id in View().threads
      ensures r.Some? ==> r.value < 1024 && threads[r.value] == Some(View().threads[id]) && View().threads[id].id == id
    {
      for i := 0 to 1024
        invariant forall j :: 0 <= j < i ==> threads[j].Some? ==> threads[j].value.id != id
      {
        if threads[i].Some? && threads[i].value.id == id {
          return Some(i);
        }
      }
      return None;
    }

    /** Writes back a thread that is in the table. */
    method PutBack(i: nat, t: Thread)
      requires Valid() && t.id in slot && slot[t.id] == i
      modifies this`threads
      ensures Valid() && View() == old(View()).(threads := old(View()).threads[t.id := t])
    {
      SetThread(threads, slot, t);
      threads := threads[i := Some(t)];
    }

    method EnqueueThread(id: nat)
      requires Valid()
      modifies runQueue.Repr()
      ensures Valid() && View() == QueueThread(old(View()), id)
    {
      hide SlotsOk, ToMap, Holds;
      var found := FindThread(id);
      if found.None? {
        return;
      }
      var t := threads[found.value].value;
      if Runnable(t) {
        runQueue.Enqueue(Entry(id, t.priority, DEFAULT_TIME_SLICE));
      }
    }

    /** Puts a thread with a fresh id into the first free slot and queues it. */
    method AddThreadTo(t: Thread) returns (ok: bool)
      requires Valid() && t.id !in slot
      modifies this, runQueue.Repr()
      ensures Valid() && View() == AddThread(old(View()), t)
      ensures ok <==> |old(View()).threads| < MAX_THREADS
    {
      assert |View().threads| == |slot.Keys|;
      if threadCount >= MAX_THREADS {
        return false;
      }
      for i := 0 to 1024
        invariant Valid() && View() == old(View()) && threads == old(threads) && slot == old(slot)
        invariant forall j :: 0 <= j < i ==> threads[j].Some?
      {
        if threads[i].None? {
          PutThread(threads, slot, i, t);
          threads := threads[i := Some(t)];
          slot := slot[t.id := i];
          threadCount := threadCount + 1;
          EnqueueThread(t.id);
          return true;
        }
      }
      FullTable(threads, slot);
      assert false;
    }

    /** Takes the thread out of the queue and then out of the table. */
    method RemoveThreadFrom(id: nat) returns (r: Option<Thread>)
      requires Valid()
      modifies this, runQueue.Repr()
      ensures Valid() && RemoveThread(old(View()), id, View())
      ensures r == if id in old(View()).threads then Some(old(View()).threads[id]) else None
    {
      hide SlotsOk, ToMap, Holds, FirstOf, Without, Absent;
      UnqueueThread(id);
      r := TakeOut(id);
    }

    method UnqueueThread(id: nat)
      requires Valid()
      modifies runQueue.Repr()
      ensures Valid() && Dequeued(old(View()).levels, id, View().levels)
      ensures View() == old(View()).(levels := View().levels)
    {
      hide SlotsOk, ToMap, Holds, Without, Absent;
      var _ := runQueue.Remove(id);
      FirstIsPresent(old(runQueue.levels), id);
    }

    method TakeOut(id: nat) returns (r: Option<Thread>)
      requires Valid()
      modifies this`threads, this`threadCount, this`slot
      ensures Valid() && View() == old(View()).(threads := old(View()).threads - {id})
      ensures r == if id in old(View()).threads then Some(old(View()).threads[id]) else None
    {
      hide SlotsOk, ToMap, Holds;
      var found := FindThread(id);
      if found.None? {
        assert View().threads == View().threads - {id};
        return None;
      }
      r := threads[found.value];
      TakeThread(threads, slot, id);
      threads := threads[found.value := None];
      slot := slot - {id};
      threadCount := threadCount - 1;
    }

    method DequeueTop() returns (r: Option<Entry>)
      requires Valid()
      modifies runQueue.Repr()
      ensures Valid()
      ensures r.None? ==> AllEmpty(old(View()).levels) && View() == old(View())
      ensures r.Some? ==> !AllEmpty(old(View()).levels)
      ensures r.Some? ==>
        var ls, p := old(View()).levels, Top(old(View()).levels);
        r.value == ls[p][0] && View() == old(View()).(levels := ls[p := ls[p][1..]])
    {
      hide SlotsOk, ToMap, Holds;
      r := runQueue.Dequeue();
    }

    method RunThread(entry: Entry)
      requires Valid()
      modifies this`threads, this`currentThread
      ensures Valid() && View() == RunEntry(old(View()), entry)
    {
      hide SlotsOk, ToMap, Holds;
      var found := FindThread(entry.threadId);
      if found.Some? {
        var t := threads[found.value].value;
        PutBack(found.value, t.(state := Running, scheduleCount := t.scheduleCount + 1, timeSlice := entry.timeSlice));
      }
      currentThread := Some(entry.threadId);
    }

    /** The next thread; `idle` is the id a new idle thread would get. */
    method ScheduleNext(idle: nat) returns (r: Option<nat>)
      requires Valid() && idle !in slot
      modifies this, runQueue.Repr()
      ensures Valid() && (View(), r) == Schedule(old(View()), idle)
    {
      hide SlotsOk, ToMap, Holds, RunEntry, Requeue, Top;
      var next := DequeueTop();
      if next.Some? {
        RequeueCurrent();
        RunThread(next.value);
        return Some(next.value.threadId);
      }
      if currentThread.Some? {
        return currentThread;
      }
      var added := AddThreadTo(FreshThread(idle));
      if !added {
        return None;
      }
      currentThread := Some(idle);
      return Some(idle);
    }

    method RequeueCurrent()
      requires Valid()
      modifies this`threads, runQueue.Repr()
      ensures Valid() && View() == Requeue(old(View()))
    {
      hide SlotsOk, ToMap, Holds;
      if currentThread.Some? {
        var found := FindThread(currentThread.value);
        if found.Some? && threads[found.value].value.state == Running {
          var t := threads[found.value].value.(state := Ready);
          PutBack(found.value, t);
          runQueue.Enqueue(Entry(t.id, t.priority, DEFAULT_TIME_SLICE));
        }
      }
    }

    method YieldCpu(idle: nat)
      requires Valid() && idle !in slot
      modifies this, runQueue.Repr()
      ensures Valid() && View() == Schedule(YieldCurrent(old(View())), idle).0
    {
      hide SlotsOk, ToMap, Holds;
      if currentThread.Some? {
        var found := FindThread(currentThread.value);
        if found.Some? && threads[found.value].value.state == Running {
          var t := threads[found.value].value;
          PutBack(found.value, t.(state := Ready, voluntary := t.voluntary + 1));
        }
      }
      var _ := ScheduleNext(idle);
    }

    method BlockCurrentThread(st: ThreadState, idle: nat)
      requires Valid() && idle !in slot
      modifies this, runQueue.Repr()
      ensures Valid() && View() == Schedule(BlockCurrent(old(View()), st), idle).0
    {
      hide SlotsOk, ToMap, Holds;
      if currentThread.Some? {
        var found := FindThread(currentThread.value);
        if found.Some? {
          var t := threads[found.value].value;
          PutBack(found.value, t.(state := st, involuntary := t.involuntary + 1));
        }
      }
      var _ := ScheduleNext(idle);
    }

    method WakeThread(id: nat) returns (r: Outcome<()>)
      requires Valid()
      modifies this`threads, runQueue.Repr()
      ensures Valid() && View() == Wake(old(View()), id)
      ensures r == if id !in old(View()).threads then Err("Thread not found")
                   else if Wakable(old(View()).threads[id]) then Ok(()) else Err("Thread is not blocked")
    {
      hide SlotsOk, ToMap, Holds;
      var found := FindThread(id);
      if found.None? {
        return Err("Thread not found");
      }
      var t := threads[found.value].value;
      if !Wakable(t) {
        return Err("Thread is not blocked");
      }
      PutBack(found.value, t.(state := Ready));
      EnqueueThread(id);
      return Ok(());
    }
  }
}
