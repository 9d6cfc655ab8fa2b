/** Which tasks that wait for a start can still be woken (libparsec/src/handle.rs, client.rs,
    workspace.rs and workspace_history.rs). */
module Wakeups {
  import opened Wrappers
  import opened HandleRegistry
  import opened StartStop
  import opened Mountpoints

  ghost predicate GuardOf(s: State, d: TaskId, h: Handle)
  {
    d < |s.tasks| && Guards(s.tasks[d]) && s.tasks[d].handle == h
  }

  /** The handle is, or may still become, that of a started client. */
  ghost predicate CanBeClient(s: State, c: Handle)
  {
    && c < |s.slots| && s.slots[c].Open?
    && (|| s.slots[c].item.Client?
        || (s.slots[c].item.StartingClient? && exists d: TaskId :: GuardOf(s, d, c) && !s.tasks[d].Dropping?))
  }

  predicate NeedsClient(starting: Item) { starting.StartingWorkspace? || starting.StartingHistory? }

  /** A start that has not failed, and does not depend on a client that is gone. */
  ghost predicate CanStart(s: State, d: TaskId)
    requires d < |s.tasks|
  {
    || s.tasks[d].Working?
    || (s.tasks[d].Prepare? && (NeedsClient(s.tasks[d].starting) ==> CanBeClient(s, s.tasks[d].starting.client)))
  }

  /** Some run from here wakes the task. */
  ghost predicate CanWake(s: State, u: TaskId)
    requires u < |s.tasks|
  {
    exists events :: Moved(s, Run(s, events), u)
  }

  ghost predicate Moved(s: State, t: State, u: TaskId)
    requires u < |s.tasks|
  {
    u < |t.tasks| && t.tasks[u] != s.tasks[u]
  }

  // ---------- what is lost stays lost ----------

  lemma OneGuard(s: State, d: TaskId, e: TaskId, h: Handle)
    requires Inv(s) && GuardOf(s, d, h) && GuardOf(s, e, h)
    ensures d == e
  {
  }

  lemma GuardExists(s: State, h: Handle, owner: seq<Handle>) returns (d: TaskId)
    requires MountInv(s, owner) && h < |s.slots| && IsStartingSlot(s.slots[h])
    ensures GuardOf(s, d, h)
  {
    assert GuardedBy(s, h);
    d :| 0 <= d < |s.tasks| && Guards(s.tasks[d]) && s.tasks[d].handle == h;
  }

  /** A slot that can no longer become a client, as a fact about one slot and its guard. */
  ghost predicate NoClient(s: State, c: Handle)
  {
    && c < |s.slots|
    && (s.slots[c].Open? ==> !s.slots[c].item.Client?)
    && (s.slots[c].Open? && s.slots[c].item.StartingClient? ==>
          exists d: TaskId :: GuardOf(s, d, c) && s.tasks[d].Dropping?)
  }

  lemma NoClientIff(s: State, c: Handle, owner: seq<Handle>)
    requires MountInv(s, owner) && c < |s.slots|
    ensures NoClient(s, c) <==> !CanBeClient(s, c)
  {
    if s.slots[c].Open? && s.slots[c].item.StartingClient? {
      var d := GuardExists(s, c, owner);
      forall e: TaskId | GuardOf(s, e, c) ensures e == d { OneGuard(s, d, e, c); }
    }
  }

  lemma StepIsLocal(s: State, e: Event, d: TaskId)
    requires d < |s.tasks| && !(e.Advance? && e.t == d) && !(e.Wake? && e.t == d)
    ensures d < |Step(s, e).tasks| && Step(s, e).tasks[d] == s.tasks[d]
  {
    hide AdvanceTask;
    if e.Advance? && e.t < |s.tasks| { AdvanceIsLocal(s, e.t, e.ok); }
  }

  /** What a step does to a slot, seen from that slot. */
  lemma SlotAfterStep(s: State, e: Event, c: Handle)
    requires Inv(s) && c < |s.slots|
    ensures c < |Step(s, e).slots|
    ensures SlotEvolves(s.slots[c], Step(s, e).slots[c]) || (e.Advance? && GuardOf(s, e.t, c))
  {
    if e.Advance? && e.t < |s.tasks| {
      assert TaskFits(s.slots, s.live, s.tasks[e.t]);
      hide AdvanceTask, Inv;
      AdvanceEvolvesSlots(s, e.t, e.ok, c);
    }
  }

  /** What a guard's own step leaves in its slot. */
  lemma GuardedSlotAfter(s: State, d: TaskId, ok: bool, c: Handle)
    requires Inv(s) && GuardOf(s, d, c)
    ensures c < |s.slots| && c < |AdvanceTask(s, d, ok).slots|
    ensures var slot := AdvanceTask(s, d, ok).slots[c];
            && (s.tasks[d].Dropping? ==> slot.Closed?)
            && (slot.Open? && slot.item.Client? ==> s.slots[c].item.StartingClient?)
            && (slot.Open? && slot.item.StartingClient? ==> s.slots[c].item.StartingClient?)
  {
    assert HoldsSlot(s.slots, s.tasks[d]);
    hide Inv;
  }

  lemma NoClientStays(s: State, e: Event, c: Handle)
    requires Inv(s) && NoClient(s, c)
    ensures NoClient(Step(s, e), c)
  {
    hide Inv, Step;
    SlotAfterStep(s, e, c);
    var t := Step(s, e);
    if s.slots[c].Open? && s.slots[c].item.StartingClient? {
      var d: TaskId :| GuardOf(s, d, c) && s.tasks[d].Dropping?;
      if e.Advance? && e.t == d {
        GuardedSlotAfter(s, d, e.ok, c);
        StepOfGuard(s, e, d);
      } else {
        StepIsLocalForGuard(s, e, d);
        assert GuardOf(t, d, c);
        if e.Advance? && GuardOf(s, e.t, c) { OneGuard(s, d, e.t, c); }
      }
    } else if e.Advance? && GuardOf(s, e.t, c) {
      GuardedSlotAfter(s, e.t, e.ok, c);
      StepOfGuard(s, e, e.t);
    }
  }

  lemma StepOfGuard(s: State, e: Event, d: TaskId)
    requires e.Advance? && e.t == d && d < |s.tasks|
    ensures Step(s, e) == AdvanceTask(s, d, e.ok)
  {
  }

  lemma StepIsLocalForGuard(s: State, e: Event, d: TaskId)
    requires d < |s.tasks| && Guards(s.tasks[d]) && !(e.Advance? && e.t == d)
    ensures d < |Step(s, e).tasks| && Step(s, e).tasks[d] == s.tasks[d]
  {
    hide AdvanceTask;
    if e.Wake? && e.t == d {
    } else {
      StepIsLocal(s, e, d);
    }
  }

  /** A start that cannot succeed any more. */
  ghost predicate Failing(s: State, d: TaskId)
  {
    && d < |s.tasks|
    && (|| s.tasks[d].Dropping?
        || (s.tasks[d].Prepare? && NeedsClient(s.tasks[d].starting) && NoClient(s, s.tasks[d].starting.client)))
  }

  /** A waiting task that nothing will wake. */
  ghost predicate Lost(s: State, u: TaskId)
  {
    && u < |s.tasks| && s.tasks[u].Waiting? && u !in s.notified && s.tasks[u].on < |s.slots|
    && (s.slots[s.tasks[u].on].Closed? || exists d: TaskId :: GuardOf(s, d, s.tasks[u].on) && Failing(s, d))
  }

  lemma FailingAdvances(s: State, d: TaskId, ok: bool)
    requires Inv(s) && Failing(s, d)
    ensures var t := AdvanceTask(s, d, ok);
            && t.notified == s.notified && |t.tasks| == |s.tasks| && |t.slots| == |s.slots|
            && (s.tasks[d].Dropping? ==> t.slots[s.tasks[d].handle].Closed?)
            && (s.tasks[d].Prepare? ==>
                  t.slots == s.slots && t.tasks[d] == Dropping(s.tasks[d].starting, s.tasks[d].handle))
            && (forall v | 0 <= v < |s.tasks| && v != d :: t.tasks[v] == s.tasks[v])
  {
    assert HoldsSlot(s.slots, s.tasks[d]);
    hide Inv;
  }

  /** Listeners are notified by the guard of the slot they wait for, when it succeeds. */
  lemma NotNotified(s: State, e: Event, u: TaskId, d: TaskId)
    requires Inv(s) && Listed(s) && u < |s.tasks| && s.tasks[u].Waiting? && u !in s.notified
    requires GuardOf(s, d, s.tasks[u].on) && Failing(s, d) && !(e.Advance? && e.t == d)
    ensures u < |Step(s, e).tasks| && Step(s, e).tasks[u] == s.tasks[u] && u !in Step(s, e).notified
  {
    if e.Advance? && e.t < |s.tasks| {
      AdvanceIsLocal(s, e.t, e.ok);
      Notifies(s, e.t, e.ok);
      if e.t == u {
        WaitingStays(s, u, e.ok);
      } else if s.tasks[e.t].Working? {
        var h := s.tasks[e.t].handle;
        assert HoldsSlot(s.slots, s.tasks[e.t]);
        assert SlotListed(s.slots[h], h, s.tasks);
      }
      hide AdvanceTask, Inv, Listed;
    }
  }

  lemma FailingStays(s: State, e: Event, d: TaskId)
    requires Inv(s) && Failing(s, d) && Guards(s.tasks[d]) && !(e.Advance? && e.t == d)
    ensures Failing(Step(s, e), d) && Step(s, e).tasks[d] == s.tasks[d]
  {
    hide Inv, Step, NoClient;
    StepIsLocalForGuard(s, e, d);
    if s.tasks[d].Prepare? { NoClientStays(s, e, s.tasks[d].starting.client); }
  }

  lemma LostAfterStep(s: State, e: Event, u: TaskId)
    requires Inv(s) && Listed(s) && Lost(s, u)
    ensures Lost(Step(s, e), u) && Step(s, e).tasks[u] == s.tasks[u]
  {
    var h := s.tasks[u].on;
    if s.slots[h].Closed? {
      StrandedAfterStep(s, e, u);
    } else {
      var d: TaskId :| GuardOf(s, d, h) && Failing(s, d);
      if e.Advance? && e.t == d {
        FailingAdvances(s, d, e.ok);
        StepOfGuard(s, e, d);
        hide Inv, Listed, Step, AdvanceTask, NoClient;
        if s.tasks[d].Prepare? { assert GuardOf(Step(s, e), d, h) && Failing(Step(s, e), d); }
      } else {
        NotNotified(s, e, u, d);
        FailingStays(s, e, d);
        SlotAfterStep(s, e, h);
        hide Inv, Listed, Step, NoClient;
        assert GuardOf(Step(s, e), d, h);
      }
    }
  }

  lemma {:induction false} LostStays(s: State, events: seq<Event>, u: TaskId, owner: seq<Handle>)
    requires MountInv(s, owner) && Lost(s, u)
    ensures !Moved(s, Run(s, events), u)
    decreases |events|
  {
    if events != [] {
      LostAfterStep(s, events[0], u);
      hide MountInv, Step, Lost;
      var after := StepKeepsMountInv(s, events[0], owner);
      LostStays(Step(s, events[0]), events[1..], u, after);
    }
  }

  // ---------- what is not lost can be woken ----------

  lemma RunConcat(s: State, a: seq<Event>, b: seq<Event>)
    ensures Run(s, a + b) == Run(Run(s, a), b)
    decreases |a|
  {
    hide Step;
    if a == [] {
      assert a + b == b;
    } else {
      assert (a + b)[1..] == a[1..] + b;
      RunConcat(Step(s, a[0]), a[1..], b);
    }
  }

  lemma NotifiedWakes(s: State, u: TaskId, owner: seq<Handle>)
    requires MountInv(s, owner) && u in s.notified
    ensures u < |s.tasks| && s.tasks[u].Waiting? && Moved(s, Run(s, [Wake(u)]), u)
  {
    ResumesDirectly(s);
    RunOne(s, Wake(u));
  }

  lemma WorkingWakes(s: State, d: TaskId, u: TaskId, owner: seq<Handle>) returns (events: seq<Event>)
    requires MountInv(s, owner) && u < |s.tasks| && s.tasks[u].Waiting?
    requires GuardOf(s, d, s.tasks[u].on) && s.tasks[d].Working?
    ensures Moved(s, Run(s, events), u)
  {
    assert HoldsSlot(s.slots, s.tasks[d]);
    assert Listening(s.slots, s.notified, u, s.tasks[u]);
    var go := Advance(d, true);
    AdvanceIsLocal(s, d, true);
    Notifies(s, d, true);
    var t := Step(s, go);
    assert t.tasks[u] == s.tasks[u] && u in t.notified;
    var after := StepKeepsMountInv(s, go, owner);
    NotifiedWakes(t, u, after);
    RunCons(s, go, [Wake(u)]);
    events := [go] + [Wake(u)];
  }

  /** A start that is prepared with what it needs gets to work. */
  lemma PreparedWorks(s: State, d: TaskId, h: Handle)
    requires Inv(s) && GuardOf(s, d, h) && s.tasks[d].Prepare?
    requires NeedsClient(s.tasks[d].starting) ==> IsClient(s.slots, s.tasks[d].starting.client)
    ensures var t := Step(s, Advance(d, true));
            && GuardOf(t, d, h) && t.tasks[d] == Working(s.tasks[d].starting, h)
            && t.slots == s.slots && |t.tasks| == |s.tasks| && t.notified == s.notified
            && forall v | 0 <= v < |s.tasks| && v != d :: t.tasks[v] == s.tasks[v]
  {
  }

  lemma PreparedWakes(s: State, d: TaskId, u: TaskId, owner: seq<Handle>) returns (events: seq<Event>)
    requires MountInv(s, owner) && u < |s.tasks| && s.tasks[u].Waiting?
    requires GuardOf(s, d, s.tasks[u].on) && s.tasks[d].Prepare?
    requires NeedsClient(s.tasks[d].starting) ==> IsClient(s.slots, s.tasks[d].starting.client)
    ensures Moved(s, Run(s, events), u)
  {
    var go := Advance(d, true);
    PreparedWorks(s, d, s.tasks[u].on);
    var after := StepKeepsMountInv(s, go, owner);
    hide MountInv, Step;
    events := WorkingWakes(Step(s, go), d, u, after);
    RunCons(s, go, events);
    events := [go] + events;
  }

  /** A client that is starting can be brought up; only tasks that listen to it are touched. */
  lemma ClientStarts(s: State, g: TaskId, c: Handle, owner: seq<Handle>)
    returns (events: seq<Event>, after: seq<Handle>)
    requires MountInv(s, owner) && GuardOf(s, g, c) && !s.tasks[g].Dropping?
    requires c < |s.slots| && s.slots[c].Open? && s.slots[c].item.StartingClient?
    ensures var t := Run(s, events);
            && MountInv(t, after) && IsClient(t.slots, c) && |t.tasks| == |s.tasks| && |t.slots| == |s.slots|
            && (forall v | 0 <= v < |s.tasks| && v != g :: t.tasks[v] == s.tasks[v])
  {
    assert HoldsSlot(s.slots, s.tasks[g]);
    var go := Advance(g, true);
    if s.tasks[g].Prepare? {
      PreparedWorks(s, g, c);
      var ready := Step(s, go);
      var between := StepKeepsMountInv(s, go, owner);
      after := StepKeepsMountInv(ready, go, between);
      WorkingStarts(ready, g, c);
      RunOne(ready, go);
      RunCons(s, go, [go]);
      events := [go] + [go];
    } else {
      after := StepKeepsMountInv(s, go, owner);
      WorkingStarts(s, g, c);
      RunOne(s, go);
      events := [go];
    }
  }

  lemma WorkingStarts(s: State, g: TaskId, c: Handle)
    requires Inv(s) && GuardOf(s, g, c) && s.tasks[g].Working?
    requires c < |s.slots| && s.slots[c].Open? && s.slots[c].item.StartingClient?
    ensures var t := Step(s, Advance(g, true));
            && IsClient(t.slots, c) && |t.tasks| == |s.tasks| && |t.slots| == |s.slots|
            && (forall v | 0 <= v < |s.tasks| && v != g :: t.tasks[v] == s.tasks[v])
  {
    assert HoldsSlot(s.slots, s.tasks[g]);
  }

  lemma GuardsHoldSlots(s: State, d: TaskId)
    requires Inv(s) && d < |s.tasks| && Guards(s.tasks[d])
    ensures HoldsSlot(s.slots, s.tasks[d])
  {
  }

  lemma CanStartWakes(s: State, d: TaskId, u: TaskId, owner: seq<Handle>) returns (events: seq<Event>)
    requires MountInv(s, owner) && u < |s.tasks| && s.tasks[u].Waiting?
    requires GuardOf(s, d, s.tasks[u].on) && CanStart(s, d)
    ensures Moved(s, Run(s, events), u)
  {
    if s.tasks[d].Working? {
      events := WorkingWakes(s, d, u, owner);
    } else {
      var starting := s.tasks[d].starting;
      if NeedsClient(starting) && !IsClient(s.slots, starting.client) {
        var g: TaskId :| GuardOf(s, g, starting.client) && !s.tasks[g].Dropping?;
        GuardsHoldSlots(s, g);
        GuardsHoldSlots(s, d);
        hide MountInv, Inv, Step, Run;
        var before, after := ClientStarts(s, g, starting.client, owner);
        events := PreparedWakes(Run(s, before), d, u, after);
        RunConcat(s, before, events);
        events := before + events;
      } else {
        events := PreparedWakes(s, d, u, owner);
      }
    }
  }

  // ---------- results ----------

  lemma WaitingIsLostOrNot(s: State, u: TaskId, owner: seq<Handle>)
    requires MountInv(s, owner) && u < |s.tasks| && s.tasks[u].Waiting? && u !in s.notified
    requires forall d: TaskId | GuardOf(s, d, s.tasks[u].on) :: !CanStart(s, d)
    ensures Lost(s, u)
  {
    assert Listening(s.slots, s.notified, u, s.tasks[u]);
    var h := s.tasks[u].on;
    if s.slots[h].Open? {
      var d := GuardExists(s, h, owner);
      assert HoldsSlot(s.slots, s.tasks[d]);
      if s.tasks[d].Prepare? {
        assert RefersBelow(s.slots[h].item, h);
        NoClientIff(s, s.tasks[d].starting.client, owner);
      }
      assert Failing(s, d);
    }
  }

  /** Exactly which waiting tasks can still be woken: those that were notified, and those whose start
      has not failed and does not depend on a client that is gone. */
  lemma CanWakeIff(s: State, u: TaskId)
    requires Reachable(s) && u < |s.tasks| && s.tasks[u].Waiting?
    ensures CanWake(s, u)
       <==> u in s.notified || exists d: TaskId :: GuardOf(s, d, s.tasks[u].on) && CanStart(s, d)
  {
    var owner := ReachableHoldsMountInv(s);
    hide MountInv, Run, CanStart, GuardOf, Lost;
    if u in s.notified {
      NotifiedWakes(s, u, owner);
    } else if d: TaskId :| GuardOf(s, d, s.tasks[u].on) && CanStart(s, d) {
      var events := CanStartWakes(s, d, u, owner);
    } else {
      WaitingIsLostOrNot(s, u, owner);
      forall events ensures !Moved(s, Run(s, events), u) { LostStays(s, events, u, owner); }
    }
  }

  /** Two starts for one device: the first has registered, the second listens to it. */
  lemma TwoStarts() returns (s: State)
    ensures Reachable(s) && s.notified == {}
    ensures s.tasks == [Prepare(StartingClient(7, {}), 1), Waiting(1, Register(StartingClient(7, {})))]
  {
    var starting := StartingClient(7, {});
    assert Reachable(Initial) by { assert Run(Initial, []) == Initial; }
    var a := Step(Initial, Call(Register(starting)));
    ReachableStep(Initial, Call(Register(starting)));
    FirstObjectionIsFirst(a.slots, starting);
    var b := Step(a, Advance(0, true));
    ReachableStep(a, Advance(0, true));
    assert b.slots == [Closed, Open(starting)] && b.tasks == [Prepare(starting, 1)];
    var c := Step(b, Call(Register(starting)));
    ReachableStep(b, Call(Register(starting)));
    FirstObjectionIsFirst(c.slots, starting);
    s := Step(c, Advance(1, true));
    ReachableStep(c, Advance(1, true));
  }

  /** The first of two starts for one device does not get the device lock: the second is never told. */
  lemma ListenerCanBeStranded() returns (s: State, t: TaskId, u: TaskId)
    ensures Reachable(s) && t < |s.tasks| && s.tasks[t].Dropping?
    ensures u < |s.tasks| && s.tasks[u].Waiting? && s.tasks[u].on == s.tasks[t].handle && !CanWake(s, u)
  {
    hide Reachable, Inv, CanWake;
    var e := TwoStarts();
    s := Step(e, Advance(0, false));
    ReachableStep(e, Advance(0, false));
    assert s.tasks == [Dropping(StartingClient(7, {}), 1), e.tasks[1]] && s.notified == {};
    hide Step;
    t, u := 0, 1;
    CanWakeIff(s, u);
    ReachableHoldsInv(s);
    forall d: TaskId | GuardOf(s, d, 1) ensures !CanStart(s, d) { OneGuard(s, 0, d, 1); }
  }
}
