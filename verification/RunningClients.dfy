/** Which clients run (libparsec/src/client.rs): the bookkeeping behind `OneRunningClientPerDevice`. */
module RunningClients {
  import opened Wrappers
  import opened HandleRegistry
  import opened StartStop
  import opened Mountpoints
  import opened Wakeups

  predicate StartsClient(task: Task) { task.Working? && task.starting.StartingClient? }

  ghost predicate StopIsClosing(s: State, h: Handle)
  {
    exists t | 0 <= t < |s.tasks| :: s.tasks[t] == StopClose(h)
  }

  /** A client runs from the moment its start has the device lock until a stop has stopped it, and its
      slot is closed right after. */
  ghost predicate LiveMeans(s: State)
  {
    && (forall t | 0 <= t < |s.tasks| && StartsClient(s.tasks[t]) :: s.tasks[t].handle in s.live)
    && (forall h | 0 <= h < |s.slots| && IsClient(s.slots, h) :: h in s.live || StopIsClosing(s, h))
  }

  /** What leaves the set of running clients: the one of a start that failed, or of a stop. */
  lemma LiveAfter(s: State, t: TaskId, ok: bool, h: Handle)
    requires t < |s.tasks| && h in s.live && h !in AdvanceTask(s, t, ok).live
    ensures (s.tasks[t].Working? && s.tasks[t].handle == h) || s.tasks[t] == StopRunning(h)
  {
  }

  lemma StartsStayLive(s: State, t: TaskId, ok: bool, u: TaskId)
    requires Inv(s) && LiveMeans(s) && t < |s.tasks| && u < |AdvanceTask(s, t, ok).tasks|
    requires StartsClient(AdvanceTask(s, t, ok).tasks[u])
    ensures AdvanceTask(s, t, ok).tasks[u].handle in AdvanceTask(s, t, ok).live
  {
    AdvanceIsLocal(s, t, ok);
    if u != t {
      var h := s.tasks[u].handle;
      assert HoldsSlot(s.slots, s.tasks[u]) && TaskFits(s.slots, s.live, s.tasks[t]);
      hide AdvanceTask;
      if h !in AdvanceTask(s, t, ok).live { LiveAfter(s, t, ok, h); }
    }
  }

  /** A slot becomes a client's through the start that holds it. */
  lemma ClientSlotAfter(s: State, t: TaskId, ok: bool, h: Handle)
    requires Inv(s) && t < |s.tasks| && h < |AdvanceTask(s, t, ok).slots| && IsClient(AdvanceTask(s, t, ok).slots, h)
    ensures h < |s.slots|
    ensures || (IsClient(s.slots, h) && s.tasks[t] != StopClose(h) && !(Guards(s.tasks[t]) && s.tasks[t].handle == h))
            || (StartsClient(s.tasks[t]) && s.tasks[t].handle == h && ok)
  {
    assert TaskFits(s.slots, s.live, s.tasks[t]);
    if Guards(s.tasks[t]) { assert HoldsSlot(s.slots, s.tasks[t]); }
    hide Inv;
    if h < |s.slots| { AdvanceEvolvesSlots(s, t, ok, h); }
    if s.tasks[t].Register? { FirstObjectionIsFirst(s.slots, s.tasks[t].starting); }
    match s.tasks[t]
    case StopScan(c) => ScanEvolves(s.slots, c, StopClient(c), t);
    case WorkspaceStopScan(w, c) => ScanEvolves(s.slots, c, StopWorkspace(w), t);
    case _ =>
  }

  lemma ClientsStayLive(s: State, t: TaskId, ok: bool, h: Handle)
    requires Inv(s) && LiveMeans(s) && t < |s.tasks|
    requires h < |AdvanceTask(s, t, ok).slots| && IsClient(AdvanceTask(s, t, ok).slots, h)
    ensures h in AdvanceTask(s, t, ok).live || StopIsClosing(AdvanceTask(s, t, ok), h)
  {
    AdvanceIsLocal(s, t, ok);
    ClientSlotAfter(s, t, ok, h);
    var after := AdvanceTask(s, t, ok);
    if s.tasks[t] == StopRunning(h) {
      assert after.tasks[t] == StopClose(h);
    } else if StartsClient(s.tasks[t]) && s.tasks[t].handle == h {
      hide Inv;
    } else {
      hide AdvanceTask, Inv;
      if h in s.live {
        if h !in after.live { LiveAfter(s, t, ok, h); }
      } else {
        var u :| 0 <= u < |s.tasks| && s.tasks[u] == StopClose(h);
        assert after.tasks[u] == StopClose(h);
      }
    }
  }

  lemma AdvanceKeepsLiveMeans(s: State, t: TaskId, ok: bool)
    requires Inv(s) && LiveMeans(s) && t < |s.tasks|
    ensures LiveMeans(AdvanceTask(s, t, ok))
  {
    hide Inv, AdvanceTask;
    var after := AdvanceTask(s, t, ok);
    forall u | 0 <= u < |after.tasks| && StartsClient(after.tasks[u]) ensures after.tasks[u].handle in after.live {
      StartsStayLive(s, t, ok, u);
    }
    forall h | 0 <= h < |after.slots| && IsClient(after.slots, h) ensures h in after.live || StopIsClosing(after, h) {
      ClientsStayLive(s, t, ok, h);
    }
  }

  lemma StepKeepsLiveMeans(s: State, e: Event)
    requires Inv(s) && LiveMeans(s)
    ensures LiveMeans(Step(s, e))
  {
    ResumesDirectly(s);
    WokenTasks(s);
    hide Inv, AdvanceTask;
    var after := Step(s, e);
    if e.Advance? {
      if e.t < |s.tasks| { AdvanceKeepsLiveMeans(s, e.t, e.ok); }
    } else {
      forall h | 0 <= h < |after.slots| && IsClient(after.slots, h) ensures h in after.live || StopIsClosing(after, h) {
        assert h < |s.slots| && IsClient(s.slots, h);
        if StopIsClosing(s, h) {
          var u :| 0 <= u < |s.tasks| && s.tasks[u] == StopClose(h);
          assert after.tasks[u] == StopClose(h);
        }
      }
    }
  }

  lemma WokenTasks(s: State)
    requires Inv(s)
    ensures forall t | 0 <= t < |s.tasks| && s.tasks[t].Waiting? :: !StartsClient(s.tasks[t].resume)
  {
    forall t | 0 <= t < |s.tasks| && s.tasks[t].Waiting? ensures !StartsClient(s.tasks[t].resume) {
      assert TaskFits(s.slots, s.live, s.tasks[t]);
    }
  }

  lemma {:induction false} RunKeepsLiveMeans(s: State, events: seq<Event>)
    requires Inv(s) && LiveMeans(s)
    ensures LiveMeans(Run(s, events))
    decreases |events|
  {
    if events != [] {
      StepKeepsLiveMeans(s, events[0]);
      StepKeepsInv(s, events[0]);
      hide Inv, Step, LiveMeans;
      RunKeepsLiveMeans(Step(s, events[0]), events[1..]);
    }
  }

  /** In every reachable state, a client that is being started, or is open and not about to be closed by
      its stop, runs; so that two of them are for different devices. */
  lemma StartedClientsRun(s: State, h: Handle, t: TaskId)
    requires Reachable(s)
    ensures t < |s.tasks| && StartsClient(s.tasks[t]) ==> s.tasks[t].handle in s.live
    ensures IsClient(s.slots, h) && !StopIsClosing(s, h) ==> h in s.live
  {
    var events :| s == Run(Initial, events);
    InitialHoldsInv();
    RunKeepsLiveMeans(Initial, events);
  }
}
