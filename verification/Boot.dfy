/** The lock-free boot allocator (src/init.rs:91-114) as the interleaved steps of its callers:
    load the offset, compute the aligned range, publish it with a compare-and-exchange. */
module Boot {
  import opened Memory
  import opened Arithmetic

  /** A caller between two of its steps. */
  datatype Caller =
    | Idle(last: Option<nat>)
    | Pending(size: nat, align: nat)
    | Loaded(size: nat, align: nat, current: nat)
    | Ready(size: nat, align: nat, current: nat)

  /** A range handed out: offsets `from .. to` of the buffer. */
  datatype Grant = Grant(caller: nat, size: nat, align: nat, from: nat, to: nat)

  /** `grants` lists the successful exchanges in the order they happened. */
  datatype System = System(base: nat, limit: nat, offset: nat, callers: seq<Caller>, grants: seq<Grant>)

  datatype Action = Call(t: nat, size: nat, align: nat) | Load(t: nat) | Compute(t: nat) | Exchange(t: nat)

  function Aligned(current: nat, align: nat): (r: nat)
    requires align > 0
    ensures current <= r < current + align && r % align == 0
  {
    DivBounds(current, align);
    if current % align == 0 then current
    else
      MulMod(current / align + 1, align);
      (current / align + 1) * align
  }

  /** A call's alignment is positive: the source divides by it. */
  predicate Allowed(a: Action)
  {
    a.Call? ==> a.align > 0
  }

  predicate CallerOk(c: Caller)
  {
    c.Idle? || c.align > 0
  }

  function Step(s: System, a: Action): System
    requires forall t :: 0 <= t < |s.callers| ==> CallerOk(s.callers[t])
  {
    if a.t >= |s.callers| then s
    else
      var c := s.callers[a.t];
      assert CallerOk(c);
      match a
      case Call(t, size, align) => if c.Idle? then s.(callers := s.callers[t := Pending(size, align)]) else s
      case Load(t) => if c.Pending? then s.(callers := s.callers[t := Loaded(c.size, c.align, s.offset)]) else s
      case Compute(t) =>
        if !c.Loaded? then s
        else if Aligned(c.current, c.align) + c.size > s.limit then s.(callers := s.callers[t := Idle(None)])
        else s.(callers := s.callers[t := Ready(c.size, c.align, c.current)])
      case Exchange(t) =>
        if !c.Ready? then s
        else if s.offset != c.current then s.(callers := s.callers[t := Pending(c.size, c.align)])
        else
          var from := Aligned(c.current, c.align);
          System(s.base, s.limit, from + c.size, s.callers[t := Idle(Some(s.base + from))],
                 s.grants + [Grant(t, c.size, c.align, from, from + c.size)])
  }

  /** The offset a sequential allocator reaches after these grants. */
  function EndOf(grants: seq<Grant>): nat
  {
    if grants == [] then 0 else grants[|grants| - 1].to
  }

  /** Each grant is what one uninterrupted call would have returned after the ones before it. */
  ghost predicate Serial(grants: seq<Grant>)
  {
    forall i :: 0 <= i < |grants| ==> FollowsOn(grants[i], EndOf(grants[..i]))
  }

  predicate FollowsOn(g: Grant, end: nat)
  {
    g.align > 0 && g.from == Aligned(end, g.align) && g.to == g.from + g.size
  }

  predicate InFlight(s: System, c: Caller)
  {
    && CallerOk(c)
    && (c.Loaded? || c.Ready? ==> c.current <= s.offset)
    && (c.Ready? ==> Aligned(c.current, c.align) + c.size <= s.limit)
  }

  ghost predicate BootOk(s: System)
  {
    && s.offset == EndOf(s.grants) <= s.limit
    && Serial(s.grants)
    && forall t :: 0 <= t < |s.callers| ==> InFlight(s, s.callers[t])
  }

  /** The other callers stay in order when the offset grows. */
  lemma OthersKept(s: System, s': System, t: nat)
    requires forall u :: 0 <= u < |s.callers| ==> InFlight(s, s.callers[u])
    requires t < |s.callers| && s'.limit == s.limit && s'.offset >= s.offset
    requires |s'.callers| == |s.callers| && s'.callers == s.callers[t := s'.callers[t]] && InFlight(s', s'.callers[t])
    ensures forall u :: 0 <= u < |s'.callers| ==> InFlight(s', s'.callers[u])
  {
    hide Aligned;
    forall u | 0 <= u < |s'.callers|
      ensures InFlight(s', s'.callers[u])
    {
      assert InFlight(s, s.callers[u]);
    }
  }

  /** A step that moves one caller, and perhaps adds the grant it has just published. */
  lemma MoveKeepsOk(s: System, s': System, t: nat)
    requires BootOk(s) && t < |s.callers| && s'.limit == s.limit && |s'.callers| == |s.callers|
    requires s'.callers == s.callers[t := s'.callers[t]] && InFlight(s', s'.callers[t])
    requires s'.offset == EndOf(s'.grants) <= s.limit && s'.offset >= s.offset
    requires s'.grants == s.grants || (exists g :: s'.grants == s.grants + [g] && FollowsOn(g, s.offset))
    ensures BootOk(s')
  {
    hide Aligned, InFlight, Serial, FollowsOn;
    OthersKept(s, s', t);
    if s'.grants != s.grants {
      var g :| s'.grants == s.grants + [g] && FollowsOn(g, s.offset);
      SerialGrows(s.grants, g);
    }
  }

  lemma StepKeepsOk(s: System, a: Action)
    requires BootOk(s) && Allowed(a)
    ensures BootOk(Step(s, a))
  {
    hide Aligned, Serial, BootOk;
    if a.t < |s.callers| {
      InFlightAt(s, a.t);
      var c, s' := s.callers[a.t], Step(s, a);
      if a.Exchange? && c.Ready? && s.offset == c.current {
        var g := s'.grants[|s.grants|];
        assert FollowsOn(g, s.offset) && s'.grants == s.grants + [g];
      }
      MoveKeepsOk(s, s', a.t);
    }
  }

  lemma InFlightAt(s: System, t: nat)
    requires BootOk(s) && t < |s.callers|
    ensures InFlight(s, s.callers[t]) && s.offset == EndOf(s.grants) <= s.limit
    ensures forall u :: 0 <= u < |s.callers| ==> CallerOk(s.callers[u])
  {
    forall u | 0 <= u < |s.callers|
      ensures CallerOk(s.callers[u])
    {
      assert InFlight(s, s.callers[u]);
    }
  }

  lemma SerialGrows(grants: seq<Grant>, g: Grant)
    requires Serial(grants) && FollowsOn(g, EndOf(grants))
    ensures Serial(grants + [g])
  {
    var grants' := grants + [g];
    forall i | 0 <= i < |grants'|
      ensures FollowsOn(grants'[i], EndOf(grants'[..i]))
    {
      if i < |grants| {
        assert grants'[..i] == grants[..i];
      } else {
        assert grants'[..i] == grants;
      }
    }
  }

  ghost function Run(s: System, actions: seq<Action>): (r: System)
    requires BootOk(s) && forall i :: 0 <= i < |actions| ==> Allowed(actions[i])
    ensures BootOk(r)
  {
    if actions == [] then s
    else
      var before := Run(s, actions[..|actions| - 1]);
      StepKeepsOk(before, actions[|actions| - 1]);
      Step(before, actions[|actions| - 1])
  }

  function Initial(base: nat, limit: nat, callers: nat): System
  {
    System(base, limit, 0, seq(callers, _ => Idle(None)), [])
  }

  /** In a serial list the ranges ascend. */
  lemma {:induction false} SerialAscends(grants: seq<Grant>, i: nat, j: nat)
    requires Serial(grants) && i < j <= |grants|
    ensures grants[i].to <= EndOf(grants[..j])
    decreases j
  {
    assert FollowsOn(grants[j - 1], EndOf(grants[..j - 1]));
    if i < j - 1 {
      SerialAscends(grants, i, j - 1);
    }
  }

  /** In every interleaving of any number of callers: the ranges handed out are those of one
      sequential execution, so they are aligned, in bounds and pairwise disjoint. */
  lemma RunDisjoint(base: nat, limit: nat, callers: nat, actions: seq<Action>)
    requires forall i :: 0 <= i < |actions| ==> Allowed(actions[i])
    ensures BootOk(Initial(base, limit, callers))
    ensures var s := Run(Initial(base, limit, callers), actions);
      && Serial(s.grants)
      && (forall i :: 0 <= i < |s.grants| ==> InBuffer(s.grants[i], s.limit))
      && (forall i, j :: 0 <= i < j < |s.grants| ==> s.grants[i].to <= s.grants[j].from)
  {
    var s0 := Initial(base, limit, callers);
    var s := Run(s0, actions);
    var grants := s.grants;
    forall i | 0 <= i < |grants|
      ensures InBuffer(grants[i], s.limit)
    {
      assert FollowsOn(grants[i], EndOf(grants[..i]));
      SerialAscends(grants, i, |grants|);
      assert grants[..|grants|] == grants;
    }
    forall i, j | 0 <= i < j < |grants|
      ensures grants[i].to <= grants[j].from
    {
      assert FollowsOn(grants[j], EndOf(grants[..j]));
      SerialAscends(grants, i, j);
    }
  }

  predicate InBuffer(g: Grant, limit: nat)
  {
    g.align > 0 && g.from % g.align == 0 && g.to == g.from + g.size <= limit
  }

  // What the callers are told

  /** The exchange of caller `t` succeeds and tells it an address. */
  predicate Tells(s: System, a: Action)
  {
    a.Exchange? && a.t < |s.callers| && s.callers[a.t].Ready? && s.offset == s.callers[a.t].current
  }

  /** A caller at rest with an address has just been told where its latest grant lies: the base of
      the buffer plus the grant's offset. */
  ghost predicate Told(s: System, t: nat)
    requires t < |s.callers|
  {
    s.callers[t].Idle? && s.callers[t].last.Some? ==> exists i ::
      && 0 <= i < |s.grants| && s.grants[i].caller == t && s.callers[t].last.value == s.base + s.grants[i].from
      && forall j :: i < j < |s.grants| ==> s.grants[j].caller != t
  }

  ghost predicate AllTold(s: System)
  {
    forall t :: 0 <= t < |s.callers| ==> Told(s, t)
  }

  lemma StepKeepsTold(s: System, a: Action)
    requires BootOk(s) && AllTold(s)
    ensures AllTold(Step(s, a)) && Step(s, a).base == s.base && Step(s, a).limit == s.limit
    ensures |Step(s, a).callers| == |s.callers|
  {
    hide Aligned, Serial, BootOk;
    if a.t < |s.callers| {
      InFlightAt(s, a.t);
      var s' := Step(s, a);
      forall u | 0 <= u < |s'.callers|
        ensures Told(s', u)
      {
        assert Told(s, u);
        if s'.callers[u].Idle? && s'.callers[u].last.Some? {
          if u == a.t && Tells(s, a) {
            assert s'.grants[|s.grants|].caller == u;
          } else {
            var i :| && 0 <= i < |s.grants| && s.grants[i].caller == u
                     && s.callers[u].last.value == s.base + s.grants[i].from
                     && forall j :: i < j < |s.grants| ==> s.grants[j].caller != u;
            assert s'.grants[i] == s.grants[i];
          }
        }
      }
    }
  }

  /** In every run: whoever rests with an address holds the base plus the offset of its latest
      grant. */
  lemma {:induction false} RunTells(base: nat, limit: nat, callers: nat, actions: seq<Action>)
    requires forall i :: 0 <= i < |actions| ==> Allowed(actions[i])
    ensures BootOk(Initial(base, limit, callers))
    ensures var s := Run(Initial(base, limit, callers), actions);
      AllTold(s) && s.base == base && s.limit == limit && |s.callers| == callers
  {
    hide AllTold, Step;
    var s0 := Initial(base, limit, callers);
    if actions == [] {
      NobodyTold(s0);
    } else {
      var n := |actions| - 1;
      RunTells(base, limit, callers, actions[..n]);
      StepKeepsTold(Run(s0, actions[..n]), actions[n]);
    }
  }

  lemma NobodyTold(s: System)
    requires forall t :: 0 <= t < |s.callers| ==> s.callers[t] == Idle(None)
    ensures AllTold(s)
  {
  }

  /** The request a caller is told about is the one it made: between its call and its answer size
      and alignment never change. */
  lemma StepCarries(s: System, a: Action, t: nat)
    requires BootOk(s) && t < |s.callers|
    ensures var c, c' := s.callers[t], Step(s, a).callers[t];
      && (!c.Idle? && !c'.Idle? ==> c'.size == c.size && c'.align == c.align)
      && (c.Idle? && !c'.Idle? ==> a == Call(t, c'.size, c'.align))
      && (c.Idle? && a.Call? && a.t == t ==> c' == Pending(a.size, a.align))
      && (c.Loaded? && a == Compute(t) ==> (c'.Idle? <==> Aligned(c.current, c.align) + c.size > s.limit))
      && (!c.Idle? && c'.Idle? ==> a.t == t && (c'.last.Some? <==> Tells(s, a)))
  {
    hide Aligned;
    InFlightAt(s, t);
  }

  /** The answer: address, and the grant behind it. */
  lemma TellsGrant(s: System, a: Action)
    requires BootOk(s) && Tells(s, a)
    ensures var s', c := Step(s, a), s.callers[a.t];
      && s'.callers[a.t] == Idle(Some(s.base + Aligned(s.offset, c.align)))
      && s'.grants == s.grants + [Grant(a.t, c.size, c.align, Aligned(s.offset, c.align), s'.offset)]
      && s'.offset == Aligned(s.offset, c.align) + c.size
  {
    hide Aligned;
    InFlightAt(s, a.t);
  }

  /** In every interleaving, take any two answers, the later one after `actions[..j]`: the ranges
      the two callers may use lie one behind the other, inside the buffer, aligned to its base. */
  lemma AnswersDisjoint(base: nat, limit: nat, callers: nat, actions: seq<Action>, i: nat, j: nat)
    requires i < j < |actions| && forall k :: 0 <= k < |actions| ==> Allowed(actions[k])
    ensures BootOk(Initial(base, limit, callers))
    ensures var s0 := Initial(base, limit, callers);
      var s, u := Run(s0, actions[..i]), Run(s0, actions[..j]);
      Tells(s, actions[i]) && Tells(u, actions[j]) ==>
        var c, d := s.callers[actions[i].t], u.callers[actions[j].t];
        var p, q := Step(s, actions[i]).callers[actions[i].t].last, Step(u, actions[j]).callers[actions[j].t].last;
        && p.Some? && q.Some? && c.align > 0 && d.align > 0
        && base <= p.value && p.value + c.size <= q.value && q.value + d.size <= base + limit
        && (p.value - base) % c.align == 0 && (q.value - base) % d.align == 0
  {
    hide Aligned, Step, Run;
    var s0 := Initial(base, limit, callers);
    RunTells(base, limit, callers, actions[..i]);
    RunTells(base, limit, callers, actions[..j]);
    var s, u := Run(s0, actions[..i]), Run(s0, actions[..j]);
    if Tells(s, actions[i]) && Tells(u, actions[j]) {
      TellsGrant(s, actions[i]);
      TellsGrant(u, actions[j]);
      LaterOffset(s0, actions, i, j);
      InFlightAt(s, actions[i].t);
      InFlightAt(u, actions[j].t);
    }
  }

  lemma {:induction false} LaterOffset(s0: System, actions: seq<Action>, i: nat, j: nat)
    requires BootOk(s0) && i < j <= |actions| && forall k :: 0 <= k < |actions| ==> Allowed(actions[k])
    ensures BootOk(Run(s0, actions[..i]))
    ensures Step(Run(s0, actions[..i]), actions[i]).offset <= Run(s0, actions[..j]).offset
    decreases j
  {
    hide Step;
    var n := j - 1;
    assert actions[..j][..n] == actions[..n] && actions[..j][n] == actions[n];
    if i < n {
      LaterOffset(s0, actions, i, n);
      StepGrows(Run(s0, actions[..n]), actions[n]);
    }
  }

  /** A failed exchange means that another caller advanced the offset since this one loaded it:
      the system as a whole makes progress. */
  lemma RetryMeansProgress(s: System, t: nat)
    requires BootOk(s) && t < |s.callers| && s.callers[t].Ready?
    ensures Step(s, Exchange(t)).callers[t].Pending? <==> s.offset > s.callers[t].current
    ensures Step(s, Exchange(t)).callers[t].Pending? ==>
      |s.grants| > 0 && s.grants[|s.grants| - 1].to > s.callers[t].current
  {
    assert InFlight(s, s.callers[t]);
  }

  /** The offset never goes back, so a caller that retries loads a larger one each time. */
  lemma {:induction false} OffsetGrows(s: System, actions: seq<Action>)
    requires BootOk(s) && forall i :: 0 <= i < |actions| ==> Allowed(actions[i])
    ensures s.offset <= Run(s, actions).offset && s.grants <= Run(s, actions).grants
  {
    if actions != [] {
      var n := |actions| - 1;
      OffsetGrows(s, actions[..n]);
      var before := Run(s, actions[..n]);
      StepGrows(before, actions[n]);
    }
  }

  lemma StepGrows(s: System, a: Action)
    requires BootOk(s)
    ensures s.offset <= Step(s, a).offset && s.grants <= Step(s, a).grants
  {
    if a.t < |s.callers| {
      assert InFlight(s, s.callers[a.t]);
    }
  }

  lemma AlignedMono(x: nat, y: nat, align: nat)
    requires x <= y && align > 0
    ensures Aligned(x, align) <= Aligned(y, align)
  {
    var a, b := Aligned(x, align), Aligned(y, align);
    hide Aligned;
    DivBounds(a, align);
    DivBounds(b, align);
    Distribute(b / align, 1, align);
    MulCancelStrict(a / align, b / align + 1, align);
    MulLe(a / align, b / align, align);
  }

  /** A caller is refused only when its request does not fit behind the current offset either,
      and no later one. */
  lemma RefusedForGood(s: System, t: nat, actions: seq<Action>)
    requires BootOk(s) && t < |s.callers| && s.callers[t].Loaded? && s.callers[t].align > 0
    requires forall i :: 0 <= i < |actions| ==> Allowed(actions[i])
    requires Step(s, Compute(t)).callers[t].Idle?
    ensures var c := s.callers[t]; Aligned(Run(s, actions).offset, c.align) + c.size > s.limit
  {
    var c := s.callers[t];
    assert InFlight(s, c);
    OffsetGrows(s, actions);
    AlignedMono(c.current, Run(s, actions).offset, c.align);
  }
}
