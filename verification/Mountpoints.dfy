/** What becomes of mounts when a client is stopped (libparsec/src/workspace.rs and client.rs).

    A mount borrows its workspace first and registers afterwards, without looking at the workspace
    again. Stopping the client closes its mountpoints and waits for those that are starting, but
    cannot see a mount that has not registered yet. */
module Mountpoints {
  import opened Wrappers
  import opened HandleRegistry
  import opened StartStop

  predicate IsMount(item: Item) { item.StartingMountpoint? || item.Mountpoint? }

  predicate MountsFor(item: Item, c: Handle) { IsMount(item) && item.client == c }

  /** The item a task is starting, or waits to start. */
  predicate HasStarting(task: Task) { Core(task).Register? || Guards(Core(task)) }

  predicate IsStartingSlot(slot: Slot) { slot.Open? && IsStarting(slot.item) }

  // ---------- mounts of one workspace are for one client ----------

  ghost predicate MountOwned(item: Item, owner: seq<Handle>)
  {
    IsMount(item) ==> item.workspace < |owner| && owner[item.workspace] == item.client
  }

  ghost predicate SlotOwned(slot: Slot, i: nat, owner: seq<Handle>)
  {
    slot.Open? ==>
      && MountOwned(slot.item, owner)
      && (slot.item.Workspace? || slot.item.StartingWorkspace? ==> i < |owner| && owner[i] == slot.item.client)
  }

  ghost predicate TaskOwned(task: Task, owner: seq<Handle>)
  {
    HasStarting(task) ==> MountOwned(Core(task).starting, owner)
  }

  /** `owner` remembers the client each slot was given out for, also after it is closed. */
  ghost predicate Owned(s: State, owner: seq<Handle>)
  {
    && |owner| == |s.slots|
    && (forall i | 0 <= i < |s.slots| :: SlotOwned(s.slots[i], i, owner))
    && (forall t | 0 <= t < |s.tasks| :: TaskOwned(s.tasks[t], owner))
  }

  /** Slots that only evolve, and one task that moves on. */
  lemma OwnedSlots(s: State, slots: Slots, owner: seq<Handle>)
    requires Owned(s, owner) && Evolves(s.slots, slots) && |slots| == |s.slots|
    ensures Owned(s.(slots := slots), owner)
  {
    forall i | 0 <= i < |slots| ensures SlotOwned(slots[i], i, owner) {
      assert SlotEvolves(s.slots[i], slots[i]) && SlotOwned(s.slots[i], i, owner);
    }
  }

  lemma OwnedGoto(s: State, t: TaskId, task: Task, owner: seq<Handle>)
    requires Owned(s, owner) && t < |s.tasks| && TaskOwned(task, owner)
    ensures Owned(Goto(s, t, task), owner)
  {
  }

  function Append(owner: seq<Handle>, item: Item): seq<Handle>
  {
    owner + [if NamedClient(item).Some? then NamedClient(item).value else 0]
  }

  lemma OwnedPush(s: State, item: Item, owner: seq<Handle>)
    requires Owned(s, owner) && MountOwned(item, owner)
    ensures Owned(s.(slots := s.slots + [Open(item)]), Append(owner, item))
  {
    var longer := Append(owner, item);
    forall i | 0 <= i < |s.slots| ensures SlotOwned(s.slots[i], i, longer) {
      assert SlotOwned(s.slots[i], i, owner);
    }
    forall t | 0 <= t < |s.tasks| ensures TaskOwned(s.tasks[t], longer) {
      assert TaskOwned(s.tasks[t], owner);
    }
  }

  lemma OwnedRegister(s: State, t: TaskId, starting: Item, owner: seq<Handle>) returns (after: seq<Handle>)
    requires Inv(s) && Owned(s, owner) && t < |s.tasks| && s.tasks[t] == Register(starting) && IsStarting(starting)
    ensures Owned(RegisterStep(s, t, starting), after)
  {
    hide Inv;
    assert TaskOwned(s.tasks[t], owner);
    FirstObjectionIsFirst(s.slots, starting);
    RegisterEvolves(s.slots, starting, t);
    var (slots, outcome) := RegisterWithInit(s.slots, starting, t);
    if outcome.Registered? {
      after := Append(owner, starting);
      OwnedPush(s, starting, owner);
      OwnedGoto(s.(slots := slots), t, Prepare(starting, outcome.handle), after);
    } else {
      after := owner;
      OwnedSlots(s, slots, owner);
      var next := if outcome.Already? then Returned(true) else Waiting(outcome.handle, Register(starting));
      OwnedGoto(s.(slots := slots), t, next, owner);
    }
  }

  lemma OwnedWork(s: State, t: TaskId, starting: Item, h: Handle, ok: bool, owner: seq<Handle>)
    requires Inv(s) && Owned(s, owner) && t < |s.tasks| && s.tasks[t] == Working(starting, h) && IsStarting(starting)
    ensures Owned(WorkStep(s, t, starting, h, ok), owner)
  {
    assert HoldsSlot(s.slots, s.tasks[t]);
    hide Inv;
    assert TaskOwned(s.tasks[t], owner) && SlotOwned(s.slots[h], h, owner);
    if ok {
      var slots := s.slots[h := Open(Started(starting))];
      assert SlotOwned(slots[h], h, owner);
      assert Owned(s.(slots := slots), owner);
      OwnedGoto(s.(slots := slots), t, Returned(true), owner);
    } else {
      OwnedGoto(s, t, Dropping(starting, h), owner);
    }
  }

  lemma OwnedClose(s: State, h: Handle, owner: seq<Handle>)
    requires Owned(s, owner)
    ensures Owned(s.(slots := Close(s.slots, h)), owner)
  {
  }

  lemma OwnedScan(s: State, t: TaskId, ok: bool, owner: seq<Handle>)
    requires Owned(s, owner) && t < |s.tasks| && (s.tasks[t].StopScan? || s.tasks[t].WorkspaceStopScan?)
    ensures Owned(AdvanceTask(s, t, ok), owner)
  {
    var task := s.tasks[t];
    var target := if task.StopScan? then StopClient(task.client) else StopWorkspace(task.workspace);
    ScanEvolves(s.slots, task.client, target, t);
    var (slots, wait) := Scan(s.slots, task.client, target, t);
    OwnedSlots(s, slots, owner);
    OwnedGoto(s.(slots := slots), t, AdvanceTask(s, t, ok).tasks[t], owner);
  }

  lemma OwnedOther(s: State, t: TaskId, ok: bool, owner: seq<Handle>)
    requires Owned(s, owner) && t < |s.tasks|
    requires !s.tasks[t].Register? && !s.tasks[t].Working? && !s.tasks[t].StopScan? && !s.tasks[t].WorkspaceStopScan?
    ensures Owned(AdvanceTask(s, t, ok), owner)
  {
    var after := AdvanceTask(s, t, ok);
    assert TaskOwned(s.tasks[t], owner);
    if s.tasks[t].MountBorrow? && IsWorkspace(s.slots, s.tasks[t].workspace) {
      assert SlotOwned(s.slots[s.tasks[t].workspace], s.tasks[t].workspace, owner);
    }
    assert TaskOwned(after.tasks[t], owner);
    OwnedGoto(s, t, after.tasks[t], owner);
    var moved := Goto(s, t, after.tasks[t]);
    match s.tasks[t]
    case Dropping(_, h) => OwnedClose(moved, h, owner);
    case StopClose(c) => OwnedClose(moved, c, owner);
    case WorkspaceStopTake(w) => OwnedClose(moved, w, owner);
    case _ =>
  }

  lemma ResumesDirectly(s: State)
    requires Inv(s)
    ensures forall t | 0 <= t < |s.tasks| && s.tasks[t].Waiting? :: !s.tasks[t].resume.Waiting?
  {
    forall t | 0 <= t < |s.tasks| && s.tasks[t].Waiting? ensures !s.tasks[t].resume.Waiting? {
      assert TaskFits(s.slots, s.live, s.tasks[t]);
    }
  }

  lemma OwnedStep(s: State, e: Event, owner: seq<Handle>) returns (after: seq<Handle>)
    requires Inv(s) && Owned(s, owner)
    ensures Owned(Step(s, e), after)
  {
    ResumesDirectly(s);
    hide Inv;
    after := owner;
    match e
    case Call(task) =>
    case Advance(t, ok) =>
      if t < |s.tasks| {
        if s.tasks[t].Register? && IsStarting(s.tasks[t].starting) {
          after := OwnedRegister(s, t, s.tasks[t].starting, owner);
        } else if s.tasks[t].Working? && IsStarting(s.tasks[t].starting) {
          OwnedWork(s, t, s.tasks[t].starting, s.tasks[t].handle, ok, owner);
        } else if s.tasks[t].StopScan? || s.tasks[t].WorkspaceStopScan? {
          OwnedScan(s, t, ok, owner);
        } else if !s.tasks[t].Register? && !s.tasks[t].Working? {
          OwnedOther(s, t, ok, owner);
        }
      }
    case Wake(t) =>
      if Step(s, e) != s {
        assert TaskOwned(s.tasks[t], owner);
        OwnedGoto(s, t, s.tasks[t].resume, owner);
      }
    case Unmount(h) => OwnedClose(s, h, owner);
    case HistoryStop(h) => OwnedClose(s, h, owner);
    case OpenExportHistory =>
      after := Append(owner, History(None));
      OwnedPush(s, History(None), owner);
  }

  // ---------- who waits for what ----------

  /** A listener of the starting item in slot `h` waits for that slot, and for a reason. */
  ghost predicate ListedFor(item: Item, h: Handle, task: Task)
  {
    && task.Waiting? && task.on == h
    && (task.resume.Register? ==> !Precondition(task.resume.starting, item).Pass?)
  }

  /** What is not registered yet has no listeners. */
  ghost predicate StartsUnheard(task: Task)
  {
    Core(task).Register? && IsStarting(Core(task).starting) ==> Core(task).starting.waiters == {}
  }

  ghost predicate SlotListed(slot: Slot, h: Handle, tasks: seq<Task>)
  {
    IsStartingSlot(slot) ==> forall t | t in slot.item.waiters :: t < |tasks| && ListedFor(slot.item, h, tasks[t])
  }

  ghost predicate Listed(s: State)
  {
    && (forall t | 0 <= t < |s.tasks| :: StartsUnheard(s.tasks[t]))
    && (forall h | 0 <= h < |s.slots| :: SlotListed(s.slots[h], h, s.tasks))
    && (forall t | t in s.notified ::
          t < |s.tasks| && s.tasks[t].Waiting? && s.tasks[t].on < |s.slots| && !IsStartingSlot(s.slots[s.tasks[t].on]))
  }

  lemma ListedGoto(s: State, t: TaskId, task: Task)
    requires Listed(s) && t < |s.tasks| && !s.tasks[t].Waiting? && StartsUnheard(task)
    ensures Listed(Goto(s, t, task))
  {
    forall h | 0 <= h < |s.slots| ensures SlotListed(s.slots[h], h, s.tasks[t := task]) {
      assert SlotListed(s.slots[h], h, s.tasks);
    }
  }

  lemma ListedSlots(s: State, slots: Slots)
    requires Listed(s) && |s.slots| <= |slots|
    requires forall i | 0 <= i < |s.slots| :: slots[i] == s.slots[i] || !IsStartingSlot(slots[i])
    requires forall i | |s.slots| <= i < |slots| :: IsStartingSlot(slots[i]) ==> slots[i].item.waiters == {}
    ensures Listed(s.(slots := slots))
  {
    forall h | 0 <= h < |slots| ensures SlotListed(slots[h], h, s.tasks) {
      if h < |s.slots| { assert SlotListed(s.slots[h], h, s.tasks); }
    }
  }

  lemma ListedWait(s: State, h: Handle, t: TaskId, resume: Task)
    requires Listed(s) && t < |s.tasks| && !s.tasks[t].Waiting? && h < |s.slots| && IsStartingSlot(s.slots[h])
    requires StartsUnheard(Waiting(h, resume))
    requires resume.Register? ==> !Precondition(resume.starting, s.slots[h].item).Pass?
    ensures Listed(Goto(s, t, Waiting(h, resume)).(slots := s.slots[h := Open(AddWaiter(s.slots[h].item, t))]))
  {
    var after := Goto(s, t, Waiting(h, resume)).(slots := s.slots[h := Open(AddWaiter(s.slots[h].item, t))]);
    forall k | 0 <= k < |s.slots| ensures SlotListed(after.slots[k], k, after.tasks) {
      assert SlotListed(s.slots[k], k, s.tasks);
    }
  }

  lemma ListedInitialize(s: State, h: Handle, started: Item)
    requires Listed(s) && h < |s.slots| && IsStartingSlot(s.slots[h]) && !IsStarting(started)
    ensures Listed(s.(slots := s.slots[h := Open(started)], notified := s.notified + s.slots[h].item.waiters))
  {
    assert SlotListed(s.slots[h], h, s.tasks);
  }

  lemma ListedWake(s: State, t: TaskId)
    requires Listed(s) && t in s.notified
    ensures t < |s.tasks| && s.tasks[t].Waiting?
    ensures !s.tasks[t].resume.Waiting? ==>
              Listed(s.(tasks := s.tasks[t := s.tasks[t].resume], notified := s.notified - {t}))
  {
    assert StartsUnheard(s.tasks[t]);
    forall h | 0 <= h < |s.slots| ensures SlotListed(s.slots[h], h, s.tasks[t := s.tasks[t].resume]) {
      assert SlotListed(s.slots[h], h, s.tasks);
    }
  }

  lemma ListedRegister(s: State, t: TaskId, starting: Item)
    requires Listed(s) && t < |s.tasks| && s.tasks[t] == Register(starting) && IsStarting(starting)
    ensures Listed(RegisterStep(s, t, starting))
  {
    assert StartsUnheard(s.tasks[t]);
    FirstObjectionIsFirst(s.slots, starting);
    var (slots, outcome) := RegisterWithInit(s.slots, starting, t);
    match outcome
    case Registered(h) =>
      ListedSlots(s, slots);
      ListedGoto(s.(slots := slots), t, Prepare(starting, h));
    case Already(_) => ListedGoto(s, t, Returned(true));
    case WaitFor(h) => ListedWait(s, h, t, Register(starting));
  }

  lemma ListedWork(s: State, t: TaskId, starting: Item, h: Handle, ok: bool)
    requires Inv(s) && Listed(s) && t < |s.tasks| && s.tasks[t] == Working(starting, h) && IsStarting(starting)
    ensures Listed(WorkStep(s, t, starting, h, ok))
  {
    assert HoldsSlot(s.slots, s.tasks[t]);
    hide Inv;
    if ok {
      ListedInitialize(s, h, Started(starting));
      ListedGoto(s.(slots := s.slots[h := Open(Started(starting))], notified := s.notified + s.slots[h].item.waiters),
                 t, Returned(true));
    } else {
      ListedGoto(s, t, Dropping(starting, h));
    }
  }

  /** A scan closes slots and lists its task with one starting item at most. */
  lemma ScanSplits(slots: Slots, startAt: Handle, target: StopTarget, t: TaskId) returns (closed: Slots)
    ensures |closed| == |slots| && forall i | 0 <= i < |slots| :: closed[i] == slots[i] || closed[i].Closed?
    ensures var (after, wait) := Scan(slots, startAt, target, t);
            if wait.None? then after == closed
            else && wait.value < |slots| && IsStartingSlot(slots[wait.value]) && closed[wait.value] == slots[wait.value]
                 && after == closed[wait.value := Open(AddWaiter(slots[wait.value].item, t))]
  {
    var (after, wait) := Scan(slots, startAt, target, t);
    if wait.None? {
      closed := after;
      if startAt < |slots| { ScannedSlots(slots, startAt, target, t); }
    } else {
      ScannedSlots(slots, startAt, target, t);
      FirstWaitIsFirst(slots[startAt..], target);
      var h := wait.value;
      OnlyStartingItemsAreWaitedFor(target, slots[h].item);
      closed := after[h := slots[h]];
      assert after == closed[h := Open(AddWaiter(slots[h].item, t))];
    }
  }

  lemma ScannedSlots(slots: Slots, startAt: Handle, target: StopTarget, t: TaskId)
    requires startAt < |slots|
    ensures var (after, wait) := Scan(slots, startAt, target, t);
            && |after| == |slots|
            && (forall i | 0 <= i < startAt :: after[i] == slots[i])
            && (forall i | startAt <= i < |slots| ::
                  after[i] == ScanSlot(slots[i], target, t, i == startAt + FirstWait(slots[startAt..], target)))
  {
    hide FirstWait;
    var scanned := slots[startAt..];
    forall i | startAt <= i < |slots|
      ensures Scan(slots, startAt, target, t).0[i]
           == ScanSlot(slots[i], target, t, i == startAt + FirstWait(scanned, target))
    {
      assert scanned[i - startAt] == slots[i];
    }
  }

  lemma ListedScan(s: State, t: TaskId, ok: bool)
    requires Listed(s) && t < |s.tasks| && (s.tasks[t].StopScan? || s.tasks[t].WorkspaceStopScan?)
    ensures Listed(AdvanceTask(s, t, ok))
  {
    hide Scan;
    var task := s.tasks[t];
    var target := if task.StopScan? then StopClient(task.client) else StopWorkspace(task.workspace);
    var closed := ScanSplits(s.slots, task.client, target, t);
    var (_, wait) := Scan(s.slots, task.client, target, t);
    ListedSlots(s, closed);
    if wait.Some? {
      ListedWait(s.(slots := closed), wait.value, t, task);
    } else {
      ListedGoto(s.(slots := closed), t, Returned(true));
    }
  }

  lemma ListedClose(s: State, h: Handle)
    requires Listed(s)
    ensures Listed(s.(slots := Close(s.slots, h)))
  {
    ListedSlots(s, Close(s.slots, h));
  }

  lemma ListedOther(s: State, t: TaskId, ok: bool)
    requires Listed(s) && t < |s.tasks|
    requires !s.tasks[t].Register? && !s.tasks[t].Working? && !s.tasks[t].StopScan? && !s.tasks[t].WorkspaceStopScan?
    ensures Listed(AdvanceTask(s, t, ok))
  {
    var after := AdvanceTask(s, t, ok);
    if !s.tasks[t].Waiting? {
      hide Listed;
      ListedGoto(s, t, after.tasks[t]);
      var moved := Goto(s, t, after.tasks[t]);
      match s.tasks[t]
      case Dropping(_, h) => ListedClose(moved, h);
      case StopClose(c) => ListedClose(moved, c);
      case WorkspaceStopTake(w) => ListedClose(moved, w);
      case StopRunning(_) => ListedIgnoresLife(moved, after.live);
      case Prepare(_, _) => ListedIgnoresLife(moved, after.live);
      case _ =>
    }
  }

  lemma ListedIgnoresLife(s: State, live: set<Handle>)
    requires Listed(s)
    ensures Listed(s.(live := live))
  {
  }

  lemma ListedCall(s: State, task: Task)
    requires Listed(s) && IsCall(task, |s.slots|)
    ensures Listed(s.(tasks := s.tasks + [task]))
  {
    forall h | 0 <= h < |s.slots| ensures SlotListed(s.slots[h], h, s.tasks + [task]) {
      assert SlotListed(s.slots[h], h, s.tasks);
    }
  }

  lemma ListedStep(s: State, e: Event)
    requires Inv(s) && Listed(s)
    ensures Listed(Step(s, e))
  {
    ResumesDirectly(s);
    hide Inv, Listed;
    match e
    case Call(task) => if IsCall(task, |s.slots|) { ListedCall(s, task); }
    case Advance(t, ok) =>
      if t < |s.tasks| {
        if s.tasks[t].Register? && IsStarting(s.tasks[t].starting) {
          ListedRegister(s, t, s.tasks[t].starting);
        } else if s.tasks[t].Working? && IsStarting(s.tasks[t].starting) {
          ListedWork(s, t, s.tasks[t].starting, s.tasks[t].handle, ok);
        } else if s.tasks[t].StopScan? || s.tasks[t].WorkspaceStopScan? {
          ListedScan(s, t, ok);
        } else if !s.tasks[t].Register? && !s.tasks[t].Working? {
          ListedOther(s, t, ok);
        }
      }
    case Wake(t) => if Step(s, e) != s { ListedWake(s, t); }
    case Unmount(h) => ListedClose(s, h);
    case HistoryStop(h) => ListedClose(s, h);
    case OpenExportHistory => ListedSlots(s, s.slots + [Open(History(None))]);
  }

  // ---------- every start has its guard ----------

  ghost predicate GuardedBy(s: State, h: Handle)
  {
    exists t | 0 <= t < |s.tasks| :: Guards(s.tasks[t]) && s.tasks[t].handle == h
  }

  ghost predicate Guarded(s: State)
  {
    forall h | 0 <= h < |s.slots| && IsStartingSlot(s.slots[h]) :: GuardedBy(s, h)
  }

  /** A task that holds no guard, or keeps the one it holds, and no new starting slots. */
  lemma GuardedGoto(s: State, t: TaskId, after: State)
    requires Guarded(s) && t < |s.tasks| == |after.tasks|
    requires forall u | 0 <= u < |s.tasks| && u != t :: after.tasks[u] == s.tasks[u]
    requires |s.slots| <= |after.slots|
    requires forall h | 0 <= h < |after.slots| && IsStartingSlot(after.slots[h]) ::
               || (Guards(after.tasks[t]) && after.tasks[t].handle == h)
               || (h < |s.slots| && IsStartingSlot(s.slots[h]) && (Guards(s.tasks[t]) ==> s.tasks[t].handle != h))
    ensures Guarded(after)
  {
    forall h | 0 <= h < |after.slots| && IsStartingSlot(after.slots[h]) ensures GuardedBy(after, h) {
      if Guards(after.tasks[t]) && after.tasks[t].handle == h {
      } else {
        var u :| 0 <= u < |s.tasks| && Guards(s.tasks[u]) && s.tasks[u].handle == h;
        assert after.tasks[u] == s.tasks[u];
      }
    }
  }

  /** Starting slots come from registering only, and end with their guard's task. */
  lemma StartingSlotsStay(s: State, t: TaskId, ok: bool, h: Handle)
    requires Inv(s) && t < |s.tasks| && h < |AdvanceTask(s, t, ok).slots|
             && IsStartingSlot(AdvanceTask(s, t, ok).slots[h])
    ensures var after := AdvanceTask(s, t, ok);
            || (Guards(after.tasks[t]) && after.tasks[t].handle == h)
            || (h < |s.slots| && IsStartingSlot(s.slots[h]) && (Guards(s.tasks[t]) ==> s.tasks[t].handle != h))
  {
    assert TaskFits(s.slots, s.live, s.tasks[t]);
    if Guards(s.tasks[t]) { assert HoldsSlot(s.slots, s.tasks[t]); }
    hide Inv, Scan;
    if h < |s.slots| { AdvanceEvolvesSlots(s, t, ok, h); }
    if s.tasks[t].Register? { FirstObjectionIsFirst(s.slots, s.tasks[t].starting); }
  }

  lemma AdvanceIsLocal(s: State, t: TaskId, ok: bool)
    requires t < |s.tasks|
    ensures var after := AdvanceTask(s, t, ok);
            && |after.tasks| == |s.tasks| && |s.slots| <= |after.slots|
            && forall u | 0 <= u < |s.tasks| && u != t :: after.tasks[u] == s.tasks[u]
  {
    if s.tasks[t].Register? { FirstObjectionIsFirst(s.slots, s.tasks[t].starting); }
  }

  lemma GuardedAdvance(s: State, t: TaskId, ok: bool)
    requires Inv(s) && Guarded(s) && t < |s.tasks|
    ensures Guarded(AdvanceTask(s, t, ok))
  {
    hide Inv, AdvanceTask, Guarded;
    AdvanceIsLocal(s, t, ok);
    forall h | 0 <= h < |AdvanceTask(s, t, ok).slots| && IsStartingSlot(AdvanceTask(s, t, ok).slots[h])
      ensures var after := AdvanceTask(s, t, ok);
              || (Guards(after.tasks[t]) && after.tasks[t].handle == h)
              || (h < |s.slots| && IsStartingSlot(s.slots[h]) && (Guards(s.tasks[t]) ==> s.tasks[t].handle != h))
    {
      StartingSlotsStay(s, t, ok, h);
    }
    GuardedGoto(s, t, AdvanceTask(s, t, ok));
  }

  lemma GuardedStep(s: State, e: Event)
    requires Inv(s) && Guarded(s)
    ensures Guarded(Step(s, e))
  {
    ResumesDirectly(s);
    match e
    case Call(task) =>
      forall h | 0 <= h < |s.slots| && IsStartingSlot(s.slots[h]) ensures GuardedBy(Step(s, e), h) {
        var u :| 0 <= u < |s.tasks| && Guards(s.tasks[u]) && s.tasks[u].handle == h;
        assert Step(s, e).tasks[u] == s.tasks[u];
      }
    case Advance(t, ok) => if t < |s.tasks| { GuardedAdvance(s, t, ok); }
    case Wake(t) => if Step(s, e) != s { GuardedGoto(s, t, Step(s, e)); }
    case _ =>
      hide Inv;
      forall h | 0 <= h < |Step(s, e).slots| && IsStartingSlot(Step(s, e).slots[h]) ensures GuardedBy(Step(s, e), h) {
        assert GuardedBy(s, h);
      }
  }

  // ---------- all invariants ----------

  ghost predicate MountInv(s: State, owner: seq<Handle>)
  {
    Inv(s) && Owned(s, owner) && Listed(s) && Guarded(s)
  }

  lemma StepKeepsMountInv(s: State, e: Event, owner: seq<Handle>) returns (after: seq<Handle>)
    requires MountInv(s, owner)
    ensures MountInv(Step(s, e), after)
  {
    hide Inv, Owned, Listed, Guarded, Step;
    StepKeepsInv(s, e);
    ListedStep(s, e);
    GuardedStep(s, e);
    after := OwnedStep(s, e, owner);
  }

  lemma {:induction false} RunKeepsMountInv(s: State, events: seq<Event>, owner: seq<Handle>)
    returns (after: seq<Handle>)
    requires MountInv(s, owner)
    ensures MountInv(Run(s, events), after)
    decreases |events|
  {
    hide MountInv, Step;
    if events == [] {
      after := owner;
    } else {
      after := StepKeepsMountInv(s, events[0], owner);
      after := RunKeepsMountInv(Step(s, events[0]), events[1..], after);
    }
  }

  lemma ReachableHoldsMountInv(s: State) returns (owner: seq<Handle>)
    requires Reachable(s)
    ensures MountInv(s, owner)
  {
    var events :| s == Run(Initial, events);
    InitialHoldsInv();
    owner := RunKeepsMountInv(Initial, events, [0]);
  }

  // ---------- listeners of a start that fails ----------

  /** Dropping a guard closes its slot and wakes nobody, and so whoever listens to it waits forever. */
  lemma DroppedStartStrandsListeners(s: State, t: TaskId, ok: bool, u: TaskId, events: seq<Event>)
    requires Reachable(s) && t < |s.tasks| && s.tasks[t].Dropping?
    requires u < |s.tasks| && s.tasks[u].Waiting? && s.tasks[u].on == s.tasks[t].handle
    ensures var dropped := Step(s, Advance(t, ok));
            && dropped.notified == s.notified
            && u < |Run(dropped, events).tasks| && Run(dropped, events).tasks[u] == s.tasks[u]
  {
    var owner := ReachableHoldsMountInv(s);
    assert HoldsSlot(s.slots, s.tasks[t]);
    var dropped := Step(s, Advance(t, ok));
    var after := StepKeepsMountInv(s, Advance(t, ok), owner);
    StrandedStays(dropped, events, u, after);
  }

  ghost predicate Stranded(s: State, u: TaskId)
  {
    u < |s.tasks| && s.tasks[u].Waiting? && u !in s.notified && s.tasks[u].on < |s.slots|
      && s.slots[s.tasks[u].on].Closed?
  }

  lemma {:induction false} StrandedStays(s: State, events: seq<Event>, u: TaskId, owner: seq<Handle>)
    requires MountInv(s, owner) && Stranded(s, u)
    ensures u < |Run(s, events).tasks| && Run(s, events).tasks[u] == s.tasks[u]
    decreases |events|
  {
    if events != [] {
      StrandedAfterStep(s, events[0], u);
      hide MountInv, Step, Stranded;
      var after := StepKeepsMountInv(s, events[0], owner);
      StrandedStays(Step(s, events[0]), events[1..], u, after);
    }
  }

  lemma StrandedAfterStep(s: State, e: Event, u: TaskId)
    requires Inv(s) && Listed(s) && Stranded(s, u)
    ensures Stranded(Step(s, e), u) && Step(s, e).tasks[u] == s.tasks[u]
  {
    ClosedAfterStep(s, e, s.tasks[u].on);
    if e.Advance? && e.t < |s.tasks| {
      AdvanceIsLocal(s, e.t, e.ok);
      Notifies(s, e.t, e.ok);
      if Guards(s.tasks[e.t]) {
        assert HoldsSlot(s.slots, s.tasks[e.t]);
        assert SlotListed(s.slots[s.tasks[e.t].handle], s.tasks[e.t].handle, s.tasks);
      }
      hide AdvanceTask, Inv, Listed;
    }
  }

  /** Only a start that succeeds wakes tasks: those that listen to its slot. */
  lemma Notifies(s: State, t: TaskId, ok: bool)
    requires Inv(s) && t < |s.tasks|
    ensures AdvanceTask(s, t, ok).notified
         == if s.tasks[t].Working? && ok && IsStartingSlot(s.slots[s.tasks[t].handle])
            then s.notified + s.slots[s.tasks[t].handle].item.waiters else s.notified
  {
    if Guards(s.tasks[t]) { assert HoldsSlot(s.slots, s.tasks[t]); }
    hide Inv;
  }

  // ---------- when a stopped client can get a mountpoint ----------

  ghost predicate MountOpen(slots: Slots, c: Handle)
  {
    exists i | 0 <= i < |slots| :: slots[i].Open? && slots[i].item.Mountpoint? && slots[i].item.client == c
  }

  /** A mount of client `c` that is about to register, has registered and not failed, or was woken to
      register again. One that listens and was not woken, or whose guard is being dropped, is not. */
  predicate CanMount(s: State, t: TaskId, c: Handle)
    requires t < |s.tasks|
  {
    var task := s.tasks[t];
    || ((task.Register? || task.Prepare? || task.Working?) && MountsFor(task.starting, c))
    || (task.Waiting? && t in s.notified && task.resume.Register? && MountsFor(task.resume.starting, c))
  }

  ghost predicate Over(s: State, c: Handle)
  {
    !MountOpen(s.slots, c) && forall t | 0 <= t < |s.tasks| :: !CanMount(s, t, c)
  }

  lemma TaskDoesNotMount(s: State, t: TaskId, ok: bool, c: Handle)
    requires Inv(s) && c in s.stopped && t < |s.tasks| && !CanMount(s, t, c) && !s.tasks[t].Waiting?
    requires forall u | u in s.notified :: u < |s.tasks| && s.tasks[u].Waiting?
    ensures t < |AdvanceTask(s, t, ok).tasks| && !CanMount(AdvanceTask(s, t, ok), t, c)
  {
    hide RegisterWithInit, Scan, Initialize, Objects;
    Notifies(s, t, ok);
    AdvanceIsLocal(s, t, ok);
    if s.tasks[t].MountBorrow? && IsWorkspace(s.slots, s.tasks[t].workspace) {
      assert Quiet(s.slots, s.tasks, c) && !OpenFor(s.slots[s.tasks[t].workspace], c);
    }
    hide Inv;
  }

  lemma NoMountOpens(s: State, t: TaskId, ok: bool, c: Handle)
    requires Inv(s) && t < |s.tasks| && !CanMount(s, t, c) && !MountOpen(s.slots, c)
    ensures !MountOpen(AdvanceTask(s, t, ok).slots, c)
  {
    var after := AdvanceTask(s, t, ok);
    assert TaskFits(s.slots, s.live, s.tasks[t]);
    if Guards(s.tasks[t]) { assert HoldsSlot(s.slots, s.tasks[t]); }
    hide Inv;
    match s.tasks[t] {
      case Register(starting) =>
        RegisterEvolves(s.slots, starting, t);
        FirstObjectionIsFirst(s.slots, starting);
        EvolvedMounts(s.slots, after.slots, c);
      case StopScan(d) =>
        ScanEvolves(s.slots, d, StopClient(d), t);
        EvolvedMounts(s.slots, after.slots, c);
      case WorkspaceStopScan(w, d) =>
        ScanEvolves(s.slots, d, StopWorkspace(w), t);
        EvolvedMounts(s.slots, after.slots, c);
      case _ =>
    }
  }

  lemma EvolvedMounts(a: Slots, b: Slots, c: Handle)
    requires Evolves(a, b) && !MountOpen(a, c)
    requires forall i | |a| <= i < |b| :: b[i].Open? ==> !b[i].item.Mountpoint?
    ensures !MountOpen(b, c)
  {
    forall i | 0 <= i < |b| ensures !(b[i].Open? && b[i].item.Mountpoint? && b[i].item.client == c) {
      if i < |a| { assert SlotEvolves(a[i], b[i]); }
    }
  }

  /** A mount that listens is woken by a mount of the same workspace, hence of the same client. */
  lemma NobodyIsWokenToMount(s: State, t: TaskId, ok: bool, u: TaskId, c: Handle, owner: seq<Handle>)
    requires MountInv(s, owner) && t < |s.tasks| && u < |s.tasks| && u != t && !CanMount(s, t, c) && !CanMount(s, u, c)
    ensures u < |AdvanceTask(s, t, ok).tasks| && !CanMount(AdvanceTask(s, t, ok), u, c)
  {
    AdvanceIsLocal(s, t, ok);
    Notifies(s, t, ok);
    var task, waiting := s.tasks[t], s.tasks[u];
    if task.Working? && waiting.Waiting? && waiting.resume.Register? && MountsFor(waiting.resume.starting, c) {
      assert HoldsSlot(s.slots, task);
      assert SlotListed(s.slots[task.handle], task.handle, s.tasks);
      assert TaskFits(s.slots, s.live, waiting);
      assert TaskOwned(task, owner) && TaskOwned(waiting, owner);
      if u in s.slots[task.handle].item.waiters {
        assert ListedFor(s.slots[task.handle].item, task.handle, waiting);
      }
    }
    hide Inv, AdvanceTask, Listed, Owned, Guarded;
  }

  lemma OverAfterAdvance(s: State, t: TaskId, ok: bool, c: Handle, owner: seq<Handle>)
    requires MountInv(s, owner) && c in s.stopped && Over(s, c) && t < |s.tasks|
    ensures Over(AdvanceTask(s, t, ok), c)
  {
    assert Inv(s) && Listed(s);
    hide AdvanceTask, Inv, MountInv, CanMount, MountOpen;
    AdvanceIsLocal(s, t, ok);
    NoMountOpens(s, t, ok, c);
    forall u | 0 <= u < |s.tasks| ensures !CanMount(AdvanceTask(s, t, ok), u, c) {
      if u != t {
        NobodyIsWokenToMount(s, t, ok, u, c, owner);
      } else if !s.tasks[t].Waiting? {
        TaskDoesNotMount(s, t, ok, c);
      } else {
        WaitingStays(s, t, ok);
      }
    }
  }

  lemma WaitingStays(s: State, t: TaskId, ok: bool)
    requires t < |s.tasks| && s.tasks[t].Waiting?
    ensures AdvanceTask(s, t, ok) == s
  {
  }

  lemma OverAfterStep(s: State, e: Event, c: Handle, owner: seq<Handle>)
    requires MountInv(s, owner) && c in s.stopped && Over(s, c)
    ensures Over(Step(s, e), c)
  {
    assert Inv(s) && Listed(s);
    ResumesDirectly(s);
    hide Inv, MountInv, Listed, AdvanceTask;
    match e
    case Advance(t, ok) => if t < |s.tasks| { OverAfterAdvance(s, t, ok, c, owner); }
    case Wake(t) =>
      if Step(s, e) != s { assert !CanMount(s, t, c); }
      forall u | 0 <= u < |s.tasks| ensures !CanMount(Step(s, e), u, c) { assert !CanMount(s, u, c); }
    case Call(task) =>
      forall u | 0 <= u < |Step(s, e).tasks| ensures !CanMount(Step(s, e), u, c) {
        if u < |s.tasks| { assert !CanMount(s, u, c); }
      }
    case _ =>
      forall u | 0 <= u < |s.tasks| ensures !CanMount(Step(s, e), u, c) { assert !CanMount(s, u, c); }
  }

  lemma {:induction false} OverStays(s: State, events: seq<Event>, c: Handle, owner: seq<Handle>)
    requires MountInv(s, owner) && c in s.stopped && Over(s, c)
    ensures Over(Run(s, events), c)
    decreases |events|
  {
    if events != [] {
      hide MountInv, Over, Step;
      OverAfterStep(s, events[0], c, owner);
      StoppedAfterStep(s, events[0], c);
      var after := StepKeepsMountInv(s, events[0], owner);
      OverStays(Step(s, events[0]), events[1..], c, after);
    }
  }

  lemma StoppedAfterStep(s: State, e: Event, c: Handle)
    requires c in s.stopped
    ensures c in Step(s, e).stopped
  {
  }

  // ---------- and how it then gets one ----------

  /** A registered mount that does not fail opens its mountpoint. */
  lemma GuardOpens(s: State, t: TaskId, c: Handle) returns (events: seq<Event>)
    requires Inv(s) && t < |s.tasks| && (s.tasks[t].Prepare? || s.tasks[t].Working?)
             && MountsFor(s.tasks[t].starting, c)
    ensures MountOpen(Run(s, events).slots, c)
  {
    assert HoldsSlot(s.slots, s.tasks[t]);
    hide Inv;
    var go, h, starting := Advance(t, true), s.tasks[t].handle, s.tasks[t].starting;
    var ready := if s.tasks[t].Prepare? then Step(s, go) else s;
    assert ready.slots == s.slots && ready.tasks[t] == Working(starting, h);
    var mounted := Step(ready, go);
    assert mounted.slots[h] == Open(Mountpoint(c, starting.workspace));
    events := if s.tasks[t].Prepare? then [go, go] else [go];
    RunOne(ready, go);
    if s.tasks[t].Prepare? { RunCons(s, go, [go]); }
  }

  lemma RunOne(s: State, e: Event)
    ensures Run(s, [e]) == Step(s, e)
  {
    hide Step;
    assert [e][1..] == [];
    assert Run(Step(s, e), []) == Step(s, e);
  }

  lemma RunCons(s: State, e: Event, events: seq<Event>)
    ensures Run(s, [e] + events) == Run(Step(s, e), events)
  {
    hide Step;
    assert ([e] + events)[1..] == events;
  }

  /** A mount that meets no objection registers. */
  lemma RegisterOpens(s: State, t: TaskId, c: Handle) returns (events: seq<Event>)
    requires Inv(s) && t < |s.tasks| && s.tasks[t].Register? && MountsFor(s.tasks[t].starting, c)
    requires forall i | 0 <= i < |s.slots| :: !Objects(s.slots[i], s.tasks[t].starting)
    ensures MountOpen(Run(s, events).slots, c)
  {
    hide Inv;
    var go := Advance(t, true);
    StepKeepsInv(s, go);
    TasksAreStarting(s, t);
    FirstObjectionIsFirst(s.slots, s.tasks[t].starting);
    var registered := Step(s, go);
    assert registered.tasks[t] == Prepare(s.tasks[t].starting, |s.slots|);
    events := GuardOpens(registered, t, c);
    RunCons(s, go, events);
    events := [go] + events;
  }

  lemma TasksAreStarting(s: State, t: TaskId)
    requires Inv(s) && t < |s.tasks| && s.tasks[t].Register?
    ensures IsStarting(s.tasks[t].starting)
  {
    assert TaskFits(s.slots, s.live, s.tasks[t]);
  }

  /** What objects to a mount is a mount of the same client. */
  lemma ObjectionIsMount(s: State, t: TaskId, i: Handle, c: Handle, owner: seq<Handle>)
    requires Owned(s, owner) && t < |s.tasks| && s.tasks[t].Register? && MountsFor(s.tasks[t].starting, c)
    requires s.tasks[t].starting.StartingMountpoint? && i < |s.slots| && Objects(s.slots[i], s.tasks[t].starting)
    ensures MountsFor(s.slots[i].item, c) && s.slots[i].item.workspace == s.tasks[t].starting.workspace
  {
    assert TaskOwned(s.tasks[t], owner) && SlotOwned(s.slots[i], i, owner);
  }

  /** A mount about to register opens a mountpoint, its own or the one that is in its way. */
  lemma RegisteringMountOpens(s: State, t: TaskId, c: Handle, owner: seq<Handle>) returns (events: seq<Event>)
    requires MountInv(s, owner) && t < |s.tasks| && s.tasks[t].Register? && MountsFor(s.tasks[t].starting, c)
    ensures MountOpen(Run(s, events).slots, c)
  {
    TasksAreStarting(s, t);
    var starting := s.tasks[t].starting;
    if i: nat :| i < |s.slots| && Objects(s.slots[i], starting) {
      ObjectionIsMount(s, t, i, c, owner);
      if s.slots[i].item.Mountpoint? {
        events := [];
      } else {
        assert GuardedBy(s, i);
        var u :| 0 <= u < |s.tasks| && Guards(s.tasks[u]) && s.tasks[u].handle == i;
        assert HoldsSlot(s.slots, s.tasks[u]);
        if s.tasks[u].Dropping? {
          events := DropThenRegister(s, u, t, c, owner);
        } else {
          events := GuardOpens(s, u, c);
        }
      }
    } else {
      events := RegisterOpens(s, t, c);
    }
  }

  lemma OnlyObjection(slots: Slots, starting: Item, i: Handle, k: Handle)
    requires UniqueResources(slots) && starting.StartingMountpoint?
    requires i < |slots| && k < |slots| && i != k && Objects(slots[i], starting)
    ensures !Objects(slots[k], starting)
  {
  }

  lemma DropThenRegister(s: State, u: TaskId, t: TaskId, c: Handle, owner: seq<Handle>) returns (events: seq<Event>)
    requires Inv(s) && Owned(s, owner) && t < |s.tasks| && u < |s.tasks|
    requires s.tasks[t].Register? && MountsFor(s.tasks[t].starting, c) && s.tasks[t].starting.StartingMountpoint?
    requires s.tasks[u].Dropping? && s.tasks[u].handle < |s.slots|
             && Objects(s.slots[s.tasks[u].handle], s.tasks[t].starting)
    ensures MountOpen(Run(s, events).slots, c)
  {
    var i, drop := s.tasks[u].handle, Advance(u, true);
    var dropped := Step(s, drop);
    assert dropped.slots == s.slots[i := Closed] && dropped.tasks[t] == s.tasks[t];
    ObjectionIsMount(s, t, i, c, owner);
    forall k | 0 <= k < |s.slots| && k != i ensures !Objects(s.slots[k], s.tasks[t].starting) {
      OnlyObjection(s.slots, s.tasks[t].starting, i, k);
    }
    StepKeepsInv(s, drop);
    hide Inv;
    events := RegisterOpens(dropped, t, c);
    RunCons(s, drop, events);
    events := [drop] + events;
  }

  lemma CanMountOpens(s: State, t: TaskId, c: Handle, owner: seq<Handle>) returns (events: seq<Event>)
    requires MountInv(s, owner) && t < |s.tasks| && CanMount(s, t, c)
    ensures MountOpen(Run(s, events).slots, c)
  {
    if s.tasks[t].Register? {
      events := RegisteringMountOpens(s, t, c, owner);
    } else if s.tasks[t].Waiting? {
      var woken := Step(s, Wake(t));
      var after := StepKeepsMountInv(s, Wake(t), owner);
      events := RegisteringMountOpens(woken, t, c, after);
      RunCons(s, Wake(t), events);
      events := [Wake(t)] + events;
    } else {
      events := GuardOpens(s, t, c);
    }
  }

  /** Some run from here has a mountpoint of client `c` open. */
  ghost predicate MountpointCanOpen(s: State, c: Handle)
  {
    exists events :: MountOpen(Run(s, events).slots, c)
  }

  lemma RunShows(s: State, events: seq<Event>, c: Handle)
    requires MountOpen(Run(s, events).slots, c)
    ensures MountpointCanOpen(s, c)
  {
    hide Run, MountOpen;
  }

  lemma NoRunShows(s: State, c: Handle, owner: seq<Handle>)
    requires MountInv(s, owner) && c in s.stopped && Over(s, c)
    ensures !MountpointCanOpen(s, c)
  {
    hide MountInv, Run;
    forall events ensures !MountOpen(Run(s, events).slots, c) {
      OverStays(s, events, c, owner);
    }
  }

  /** Exactly when a stopped client has or can still get a mountpoint. */
  lemma MountpointOpensIff(s: State, c: Handle)
    requires Reachable(s) && c in s.stopped
    ensures MountpointCanOpen(s, c) <==> MountOpen(s.slots, c) || exists t | 0 <= t < |s.tasks| :: CanMount(s, t, c)
  {
    hide MountpointCanOpen, MountInv, CanMount, MountOpen;
    var owner := ReachableHoldsMountInv(s);
    if MountOpen(s.slots, c) {
      RunShows(s, [], c);
    } else if exists t | 0 <= t < |s.tasks| :: CanMount(s, t, c) {
      var t :| 0 <= t < |s.tasks| && CanMount(s, t, c);
      var events := CanMountOpens(s, t, c, owner);
      RunShows(s, events, c);
    } else {
      NoRunShows(s, c, owner);
    }
  }

  /** The stop itself leaves no mountpoint behind, open or starting. */
  lemma StopLeavesNoMount(s: State, t: TaskId, c: Handle)
    requires Reachable(s) && t < |s.tasks| && s.tasks[t] == StopScan(c) && Scan(s.slots, c, StopClient(c), t).1.None?
    ensures var after := Step(s, Advance(t, true));
            c in after.stopped && forall i | 0 <= i < |after.slots| && after.slots[i].Open? ::
                !MountsFor(after.slots[i].item, c)
  {
    ReachableHoldsInv(s);
    assert TaskFits(s.slots, s.live, s.tasks[t]);
    var after := Step(s, Advance(t, true));
    ScanEvolves(s.slots, c, StopClient(c), t);
    forall i | 0 <= i < |after.slots| && after.slots[i].Open? ensures !MountsFor(after.slots[i].item, c) {
      assert SlotEvolves(s.slots[i], after.slots[i]);
      if c <= i {
        ScanWithoutWaitClears(s.slots, c, StopClient(c), t, i);
      } else {
        assert RefersBelow(s.slots[i].item, i);
      }
    }
  }

  /** A client, one of its workspaces, and a mount that has just borrowed the workspace. */
  lemma PendingMountIsReachable() returns (s: State)
    ensures Reachable(s)
    ensures s.slots == [Closed, Open(Client(7)), Open(Workspace(1, 9))]
    ensures s.tasks == [Returned(true), Returned(true), Register(StartingMountpoint(1, 2, {}))]
  {
    assert Reachable(Initial) by { assert Run(Initial, []) == Initial; }
    var a := StartSucceeds(Initial, StartingClient(7, {}));
    assert a.slots == [Closed, Open(Client(7))];
    var b := StartSucceeds(a, StartingWorkspace(1, 9, {}));
    assert b.slots == [Closed, Open(Client(7)), Open(Workspace(1, 9))];
    var called := Step(b, Call(MountBorrow(2)));
    ReachableStep(b, Call(MountBorrow(2)));
    s := Step(called, Advance(2, true));
    ReachableStep(called, Advance(2, true));
  }

  lemma ScanOfPendingMount(t: TaskId)
    ensures Scan([Closed, Closed, Open(Workspace(1, 9))], 1, StopClient(1), t) == ([Closed, Closed, Closed], None)
  {
    var slots: Slots := [Closed, Closed, Open(Workspace(1, 9))];
    var scanned: Slots := [Closed, Open(Workspace(1, 9))];
    assert slots[1..] == scanned;
    assert scanned[1..] == [Open(Workspace(1, 9))] && scanned[1..][1..] == [];
    assert FirstWait([], StopClient(1)) == 0;
    assert FirstWait(scanned[1..], StopClient(1)) == 1;
    assert FirstWait(scanned, StopClient(1)) == 2;
    assert slots[..1] + [Closed, Closed] == [Closed, Closed, Closed];
    assert ScanAll(scanned, StopClient(1), t) == [Closed, Closed];
  }

  /** The guarantee for workspaces and histories does not extend to mountpoints: a client can be
      stopped, Ok returned, none of its mountpoints open, and one still open up. */
  lemma StoppedClientCanGetAMountpoint() returns (stopped: State, c: Handle, events: seq<Event>)
    ensures Reachable(stopped) && c in stopped.stopped && !MountOpen(stopped.slots, c)
    ensures MountOpen(Run(stopped, events).slots, c)
  {
    var s := PendingMountIsReachable();
    c := 1;
    assert Close(s.slots, 1) == [Closed, Closed, Open(Workspace(1, 9))];
    ScanOfPendingMount(3);
    stopped := ClientStopSucceeds(s, 1);
    assert CanMount(stopped, 2, 1);
    var owner := ReachableHoldsMountInv(stopped);
    events := CanMountOpens(stopped, 2, 1, owner);
  }
}
