/** The per-process handle table over the shared reference counts (src/object/handle.rs). */
module Handles {
  import opened Memory
  import opened HandleSpec

  /** What all tables share: the objects' reference counts and the handle ID counter. */
  class Kernel {
    var refs: map<nat, int>
    var nextHandleId: nat

    constructor ()
      ensures refs == map[] && nextHandleId == 1
    {
      refs := map[];
      nextHandleId := 1;
    }

    method AllocHandleId() returns (id: nat)
      modifies this`nextHandleId
      ensures id == old(nextHandleId) && nextHandleId == id + 1
    {
      id := nextHandleId;
      nextHandleId := nextHandleId + 1;
    }

    method RefInc(o: nat)
      modifies this`refs
      ensures refs == Bump(old(refs), o, 1)
    {
      if o != 0 {
        refs := refs[o := Refs(refs, o) + 1];
      }
    }

    /** True when this was the last reference. */
    method RefDec(o: nat) returns (last: bool)
      modifies this`refs
      ensures refs == Bump(old(refs), o, -1) && last == (o != 0 && Refs(old(refs), o) == 1)
    {
      last := o != 0 && Refs(refs, o) == 1;
      if o != 0 {
        refs := refs[o := Refs(refs, o) - 1];
      }
    }
  }

  class HandleTable {
    var slots: Slots
    var count: int

    ghost function View(): Table
      reads this
    {
      Table(slots, count)
    }

    constructor ()
      ensures count == 0 && forall i :: 0 <= i < 256 ==> slots[i].None?
    {
      slots := seq(256, _ => None);
      count := 0;
    }

    method Add(handle: Entry) returns (r: Outcome<nat>)
      modifies this
      ensures View() == Put(old(View()), handle)
      ensures r == if Full(old(View())) then Err("handle table full") else Ok(FirstFree(old(slots)))
      ensures r.Ok? ==>
        && r.value < 256 && old(slots)[r.value].None? && (forall j :: 0 <= j < r.value ==> old(slots)[j].Some?)
        && slots == old(slots)[r.value := Some(handle)] && count == old(count) + 1
      ensures r.Err? ==> slots == old(slots) && count == old(count) && forall j :: 0 <= j < 256 ==> slots[j].Some?
    {
      var i := 0;
      while i < 256
        invariant 0 <= i <= 256 && View() == old(View())
        invariant forall j :: 0 <= j < i ==> slots[j].Some?
      {
        if slots[i].None? {
          FirstFreeIs(slots, i);
          slots := slots[i := Some(handle)];
          count := count + 1;
          return Ok(i);
        }
        i := i + 1;
      }
      FirstFreeIs(slots, 256);
      return Err("handle table full");
    }

    method Get(handleVal: nat) returns (r: Option<Entry>)
      ensures r == if handleVal < 256 then slots[handleVal] else None
    {
      if handleVal >= 256 {
        return None;
      }
      r := slots[handleVal];
    }

    method Remove(kernel: Kernel, handleVal: nat) returns (r: Outcome<bool>)
      modifies this, kernel`refs
      ensures handleVal >= 256 ==> r.Err? && View() == old(View()) && kernel.refs == old(kernel.refs)
      ensures handleVal < 256 ==>
        && View() == Drop(old(View()), handleVal) && r == Ok(old(slots)[handleVal].Some?)
        && kernel.refs == if r.value then Bump(old(kernel.refs), old(slots)[handleVal].value.base, -1)
           else old(kernel.refs)
      ensures handleVal < 256 ==>
        && slots == old(slots)[handleVal := None]
        && count == old(count) - One(old(slots)[handleVal].Some?)
    {
      if handleVal >= 256 {
        return Err("invalid handle value");
      }
      match slots[handleVal]
      case None =>
        return Ok(false);
      case Some(entry) =>
        slots := slots[handleVal := None];
        count := count - 1;
        if entry.base != 0 {
          var _ := kernel.RefDec(entry.base);
        }
        return Ok(true);
    }

    /** Takes the reference first and looks for a slot afterwards. An index past the table is the
        source's index panic. */
    method Duplicate(kernel: Kernel, handleVal: nat, mask: Rights) returns (r: Outcome<nat>)
      modifies this, kernel
      ensures handleVal >= 256 ==> r.Halt?
      ensures handleVal < 256 && old(slots)[handleVal].None? ==> r == Err("handle not found")
      ensures handleVal < 256 && old(slots)[handleVal].Some? && !Duplicable(old(View()), handleVal) ==>
        r == Err("duplicate right not held")
      ensures !Duplicable(old(View()), handleVal) ==>
        View() == old(View()) && kernel.refs == old(kernel.refs) && kernel.nextHandleId == old(kernel.nextHandleId)
      ensures Duplicable(old(View()), handleVal) ==>
        var e := old(slots)[handleVal].value;
        && View() == Put(old(View()), Copy(e, mask, old(kernel.nextHandleId)))
        && kernel.refs == Bump(old(kernel.refs), e.base, 1) && kernel.nextHandleId == old(kernel.nextHandleId) + 1
        && r == if Full(old(View())) then Err("handle table full") else Ok(FirstFree(old(slots)))
      ensures r.Ok? ==>
        && handleVal < 256 && old(slots)[handleVal].Some? && r.value < 256 && old(slots)[r.value].None?
        && var e := old(slots)[handleVal].value;
           && slots[r.value].Some? && slots == old(slots)[r.value := slots[r.value]]
           && DuplicateOf(e, mask, old(kernel.nextHandleId), slots[r.value].value)
    {
      hide Contains, Reduced, Put, FirstFree, Bump, DuplicateOf, Full;
      if handleVal >= 256 {
        return Halt;
      }
      if slots[handleVal].None? {
        return Err("handle not found");
      }
      var entry := slots[handleVal].value;
      if !Contains(entry.rights, DUPLICATE) {
        return Err("duplicate right not held");
      }
      var newRights := if Contains(mask, SAME_RIGHTS) then entry.rights else entry.rights & mask;
      CopyIsDuplicate(entry, mask, kernel.nextHandleId);
      RightsOf(entry, mask, kernel.nextHandleId);
      if entry.base != 0 {
        kernel.RefInc(entry.base);
      } else {
        NoObject(kernel.refs, 1);
      }
      var id := kernel.AllocHandleId();
      r := Add(Entry(id, entry.base, newRights));
    }
  }

  lemma RightsOf(e: Entry, mask: Rights, id: nat)
    ensures Copy(e, mask, id) == Entry(id, e.base, if Contains(mask, SAME_RIGHTS) then e.rights else e.rights & mask)
  {
  }

  lemma NoObject(refs: map<nat, int>, d: int)
    ensures Bump(refs, 0, d) == refs
  {
  }

  lemma {:induction false} FirstFreeIs(slots: seq<Option<Entry>>, i: nat)
    requires i <= |slots| && (i < |slots| ==> slots[i].None?) && forall j :: 0 <= j < i ==> slots[j].Some?
    ensures FirstFree(slots) == i
  {
    if slots != [] && i > 0 {
      FirstFreeIs(slots[1..], i - 1);
    }
  }

  /** The methods carry out the steps of the system: with the table at `t`, its effect and that on
      the reference counts are those of `Step`. */
  lemma MethodsAreSteps(s: System, t: nat, i: nat, mask: Rights, id: nat, e: Entry)
    requires |s.origins| == |s.tables| && t < |s.tables| && i < 256
    ensures var s' := Step(s, HandleSpec.Add(t, e));
      s'.tables == s.tables[t := Put(s.tables[t], e)] && s'.refs == s.refs
    ensures var s' := Step(s, HandleSpec.Remove(t, i));
      && s'.tables == s.tables[t := Drop(s.tables[t], i)]
      && s'.refs == if s.tables[t].slots[i].Some? then Bump(s.refs, s.tables[t].slots[i].value.base, -1) else s.refs
    ensures var s' := Step(s, HandleSpec.Duplicate(t, i, mask, id));
      if Duplicable(s.tables[t], i)
      then
        && s'.tables == s.tables[t := Put(s.tables[t], Copy(s.tables[t].slots[i].value, mask, id))]
        && s'.refs == Bump(s.refs, s.tables[t].slots[i].value.base, 1)
      else s' == s
  {
    assert s.tables[t := s.tables[t]] == s.tables;
  }
}
