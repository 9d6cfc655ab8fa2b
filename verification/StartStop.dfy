/** The start and stop protocols built on the handle registry (libparsec/src/client.rs, workspace.rs
    and workspace_history.rs), as a state machine.

    Each locked section is one step of one task and steps interleave arbitrarily. All four starts
    share one shape: register a starting item, prepare, work, then either initialise the slot or
    drop the guard. Working on a slow operation, failing it or being cancelled is the environment's
    choice. A step that is not possible leaves the state alone, so every sequence of events is a run. */
module StartStop {
  import opened Wrappers
  import opened HandleRegistry

  datatype Task =
    | Register(starting: Item)                       // about to put the precondition to every slot
    | Prepare(starting: Item, handle: Handle)        // guard held: device lock, or borrowing the client
    | Working(starting: Item, handle: Handle)        // guard held: the actual start is running
    | Dropping(starting: Item, handle: Handle)       // guard held: about to be dropped
    | Waiting(on: Handle, resume: Task)              // listening to an event of slot `on`
    | MountBorrow(workspace: Handle)
    | StopBorrow(client: Handle)
    | StopRunning(client: Handle)                    // `client.stop()` in progress
    | StopClose(client: Handle)
    | StopScan(client: Handle)
    | WorkspaceStopTake(workspace: Handle)
    | WorkspaceStopBorrow(workspace: Handle, client: Handle)
    | WorkspaceStopRunning(workspace: Handle, client: Handle)
    | WorkspaceStopScan(workspace: Handle, client: Handle)
    | Returned(ok: bool)

  /** `live` holds the handles whose client may be running; `stopped` those whose `client_stop`
      returned Ok; `notified` the tasks whose awaited event fired. */
  datatype State = State(
    slots: Slots,
    tasks: seq<Task>,
    live: set<Handle>,
    stopped: set<Handle>,
    notified: set<TaskId>)

  datatype Event =
    | Call(task: Task)
    | Advance(t: TaskId, ok: bool)
    | Wake(t: TaskId)
    | Unmount(handle: Handle)
    | HistoryStop(handle: Handle)
    | OpenExportHistory

  const Initial: State := State(InitialSlots, [], {}, {}, {})

  function Started(starting: Item): Item
    requires IsStarting(starting)
  {
    match starting
    case StartingClient(d, _) => Client(d)
    case StartingWorkspace(c, r, _) => Workspace(c, r)
    case StartingMountpoint(c, w, _) => Mountpoint(c, w)
    case StartingHistory(c, _) => History(Some(c))
  }

  predicate IsClient(slots: Slots, handle: Handle)
  {
    handle < |slots| && slots[handle].Open? && slots[handle].item.Client?
  }

  predicate IsWorkspace(slots: Slots, handle: Handle)
  {
    handle < |slots| && slots[handle].Open? && slots[handle].item.Workspace?
  }

  /** The calls a caller can make: handles passed in have been issued before. */
  predicate IsCall(task: Task, issued: nat)
  {
    match task
    case Register(starting) =>
      (|| starting.StartingClient?
       || ((starting.StartingWorkspace? || starting.StartingHistory?) && starting.client < issued))
      && starting.waiters == {}
    case MountBorrow(w) => w < issued
    case StopBorrow(c) => c < issued
    case WorkspaceStopTake(w) => w < issued
    case _ => false
  }

  // ---------- steps ----------

  function Step(s: State, e: Event): State
  {
    match e
    case Call(task) => if IsCall(task, |s.slots|) then s.(tasks := s.tasks + [task]) else s
    case Advance(t, ok) => if t < |s.tasks| then AdvanceTask(s, t, ok) else s
    case Wake(t) =>
      if t < |s.tasks| && s.tasks[t].Waiting? && t in s.notified
      then s.(tasks := s.tasks[t := s.tasks[t].resume], notified := s.notified - {t}) else s
    case Unmount(h) =>
      if h < |s.slots| && s.slots[h].Open? && s.slots[h].item.Mountpoint? then s.(slots := Close(s.slots, h)) else s
    case HistoryStop(h) =>
      if h < |s.slots| && s.slots[h].Open? && s.slots[h].item.History? then s.(slots := Close(s.slots, h)) else s
    case OpenExportHistory => s.(slots := s.slots + [Open(History(None))])
  }

  function Goto(s: State, t: TaskId, task: Task): State
    requires t < |s.tasks|
  {
    s.(tasks := s.tasks[t := task])
  }

  function AdvanceTask(s: State, t: TaskId, ok: bool): State
    requires t < |s.tasks|
  {
    match s.tasks[t]
    case Register(starting) => if IsStarting(starting) then RegisterStep(s, t, starting) else s
    case Prepare(starting, h) => PrepareStep(s, t, starting, h, ok)
    case Working(starting, h) => if IsStarting(starting) then WorkStep(s, t, starting, h, ok) else s
    case Dropping(starting, h) => Goto(s, t, Returned(false)).(slots := Close(s.slots, h))
    case Waiting(_, _) => s
    case MountBorrow(w) =>
      if IsWorkspace(s.slots, w) && ok
      then Goto(s, t, Register(StartingMountpoint(s.slots[w].item.client, w, {}))) else Goto(s, t, Returned(false))
    case StopBorrow(c) => if IsClient(s.slots, c) then Goto(s, t, StopRunning(c)) else Goto(s, t, Returned(false))
    case StopRunning(c) => Goto(s, t, StopClose(c)).(live := s.live - {c})
    case StopClose(c) =>
      if IsClient(s.slots, c) then Goto(s, t, StopScan(c)).(slots := Close(s.slots, c)) else Goto(s, t, Returned(false))
    case StopScan(c) => ClientScanStep(s, t, c)
    case WorkspaceStopTake(w) =>
      if IsWorkspace(s.slots, w)
      then Goto(s, t, WorkspaceStopBorrow(w, s.slots[w].item.client)).(slots := Close(s.slots, w))
      else Goto(s, t, Returned(false))
    case WorkspaceStopBorrow(w, c) =>
      if IsClient(s.slots, c) then Goto(s, t, WorkspaceStopRunning(w, c)) else Goto(s, t, Returned(false))
    case WorkspaceStopRunning(w, c) => Goto(s, t, WorkspaceStopScan(w, c))
    case WorkspaceStopScan(w, c) =>
      var (slots, wait) := Scan(s.slots, c, StopWorkspace(w), t);
      Goto(s, t, if wait.Some? then Waiting(wait.value, WorkspaceStopScan(w, c)) else Returned(true)).(slots := slots)
    case Returned(_) => s
  }

  function RegisterStep(s: State, t: TaskId, starting: Item): State
    requires t < |s.tasks|
  {
    var (slots, outcome) := RegisterWithInit(s.slots, starting, t);
    var next := match outcome
      case Registered(h) => Prepare(starting, h)
      case Already(_) => Returned(true)
      case WaitFor(h) => Waiting(h, Register(starting));
    Goto(s, t, next).(slots := slots)
  }

  function PrepareStep(s: State, t: TaskId, starting: Item, h: Handle, ok: bool): State
    requires t < |s.tasks|
  {
    if starting.StartingClient? then
      if ok then Goto(s, t, Working(starting, h)).(live := s.live + {h}) else Goto(s, t, Dropping(starting, h))
    else if (starting.StartingWorkspace? || starting.StartingHistory?) && !IsClient(s.slots, starting.client) then
      Goto(s, t, Dropping(starting, h))
    else
      Goto(s, t, Working(starting, h))
  }

  function WorkStep(s: State, t: TaskId, starting: Item, h: Handle, ok: bool): State
    requires t < |s.tasks| && IsStarting(starting)
  {
    if ok then
      var (slots, woken) := Initialize(s.slots, h, Started(starting));
      Goto(s, t, Returned(true)).(slots := slots, notified := s.notified + woken)
    else
      Goto(s, t, Dropping(starting, h)).(live := s.live - {h})
  }

  function ClientScanStep(s: State, t: TaskId, c: Handle): State
    requires t < |s.tasks|
  {
    var (slots, wait) := Scan(s.slots, c, StopClient(c), t);
    if wait.Some? then Goto(s, t, Waiting(wait.value, StopScan(c))).(slots := slots)
    else Goto(s, t, Returned(true)).(slots := slots, stopped := s.stopped + {c})
  }

  function Run(s: State, events: seq<Event>): State
    decreases |events|
  {
    if events == [] then s else Run(Step(s, events[0]), events[1..])
  }

  // ---------- how slots may change ----------

  /** What a step may do to a slot it does not hold the guard of: closed stays closed, a starting
      item only gains listeners, a started one stays or is closed. */
  ghost predicate SlotEvolves(a: Slot, b: Slot)
  {
    match a
    case Closed => b.Closed?
    case Open(item) =>
      if IsStarting(item)
      then b.Open? && IsStarting(b.item) && Bare(b.item) == Bare(item) && item.waiters <= b.item.waiters
      else b == a || b.Closed?
  }

  ghost predicate Evolves(a: Slots, b: Slots)
  {
    |a| <= |b| && forall i | 0 <= i < |a| :: SlotEvolves(a[i], b[i])
  }

  lemma RegisterEvolves(slots: Slots, starting: Item, t: TaskId)
    ensures Evolves(slots, RegisterWithInit(slots, starting, t).0)
  {
    FirstObjectionIsFirst(slots, starting);
  }

  lemma ScanEvolves(slots: Slots, startAt: Handle, target: StopTarget, t: TaskId)
    ensures |Scan(slots, startAt, target, t).0| == |slots|
    ensures Evolves(slots, Scan(slots, startAt, target, t).0)
  {
  }

  /** A scan that does not have to wait leaves nothing of its target, open or starting. */
  lemma ScanWithoutWaitClears(slots: Slots, startAt: Handle, target: StopTarget, t: TaskId, i: nat)
    requires Scan(slots, startAt, target, t).1.None? && startAt <= i < |slots|
    ensures !MustWait(target, slots[i])
    ensures |Scan(slots, startAt, target, t).0| == |slots|
    ensures var slot := Scan(slots, startAt, target, t).0[i]; slot.Open? ==> Filter(target, slot.item).KeepIt?
  {
    var scanned := slots[startAt..];
    FirstWaitIsFirst(scanned, target);
    assert scanned[i - startAt] == slots[i];
  }

  // ---------- the invariant ----------

  /** The task, looking through a wait. */
  function Core(task: Task): Task
  {
    if task.Waiting? then task.resume else task
  }

  predicate Guards(task: Task)
  {
    task.Prepare? || task.Working? || task.Dropping?
  }

  /** A guard's slot holds the very item its task registered. */
  ghost predicate HoldsSlot(slots: Slots, task: Task)
    requires Guards(task)
  {
    && task.handle < |slots|
    && slots[task.handle].Open?
    && IsStarting(slots[task.handle].item)
    && IsStarting(task.starting)
    && Bare(slots[task.handle].item) == Bare(task.starting)
  }

  ghost predicate GuardsHold(slots: Slots, tasks: seq<Task>)
  {
    && (forall t | 0 <= t < |tasks| && Guards(tasks[t]) :: HoldsSlot(slots, tasks[t]))
    && (forall t, u | 0 <= t < u < |tasks| && Guards(tasks[t]) && Guards(tasks[u]) ::
         tasks[t].handle != tasks[u].handle)
  }

  /** At most one open or starting slot per device, per (client, realm) and per mounted workspace. */
  ghost predicate UniqueResources(slots: Slots)
  {
    forall i, j | 0 <= i < j < |slots| && slots[i].Open? && slots[j].Open? ::
        !SameResource(slots[i].item, slots[j].item)
  }

  function NamedClient(item: Item): Option<Handle>
  {
    match item
    case StartingWorkspace(c, _, _) => Some(c)
    case Workspace(c, _) => Some(c)
    case StartingMountpoint(c, _, _) => Some(c)
    case Mountpoint(c, _) => Some(c)
    case StartingHistory(c, _) => Some(c)
    case History(c) => c
    case _ => None
  }

  function NamedWorkspace(item: Item): Option<Handle>
  {
    if item.Mountpoint? || item.StartingMountpoint? then Some(item.workspace) else None
  }

  /** The item names only handles below `n`. */
  ghost predicate RefersBelow(item: Item, n: nat)
  {
    && (NamedClient(item).Some? ==> NamedClient(item).value < n)
    && (NamedWorkspace(item).Some? ==> NamedWorkspace(item).value < n)
  }

  /** Every slot comes after the client and the workspace it names. */
  ghost predicate ReferencesComeFirst(slots: Slots)
  {
    forall i | 0 <= i < |slots| && slots[i].Open? :: RefersBelow(slots[i].item, i)
  }

  /** What the registry guarantees to a task wherever it is. */
  ghost predicate TaskFits(slots: Slots, live: set<Handle>, task: Task)
  {
    && (task.Waiting? ==> task.resume.Register? || task.resume.StopScan? || task.resume.WorkspaceStopScan?)
    && match Core(task)
    case Register(starting) =>
      IsStarting(starting) && RefersBelow(starting, |slots|)
    case Prepare(_, h) => h !in live
    case Dropping(_, h) => h !in live
    case StopRunning(c) => WasClient(slots, c)
    case StopClose(c) => WasClient(slots, c) && c !in live
    case StopScan(c) => c < |slots| && slots[c].Closed?
    case WorkspaceStopBorrow(w, c) => c < w < |slots| && slots[w].Closed?
    case WorkspaceStopRunning(w, c) => c < w < |slots| && slots[w].Closed?
    case WorkspaceStopScan(w, c) => c < w < |slots| && slots[w].Closed?
    case _ => true
  }

  ghost predicate WasClient(slots: Slots, c: Handle)
  {
    c < |slots| && (slots[c].Closed? || slots[c].item.Client?)
  }

  ghost predicate TasksFit(slots: Slots, live: set<Handle>, tasks: seq<Task>)
  {
    forall t | 0 <= t < |tasks| :: TaskFits(slots, live, tasks[t])
  }

  /** A running client owns an open slot. */
  ghost predicate LiveIsOpen(slots: Slots, live: set<Handle>)
  {
    forall h | h in live :: h < |slots| && slots[h].Open? && (slots[h].item.Client? || slots[h].item.StartingClient?)
  }

  /** An open workspace or workspace history of client `c`. */
  predicate OpenFor(slot: Slot, c: Handle)
  {
    slot.Open? && (slot.item.Workspace? || slot.item.History?) && NamedClient(slot.item) == Some(c)
  }

  /** A start that has borrowed client `c` and may still open a workspace or history for it. */
  predicate StartsFor(task: Task, c: Handle)
  {
    task.Working? && (task.starting.StartingWorkspace? || task.starting.StartingHistory?) && task.starting.client == c
  }

  ghost predicate Quiet(slots: Slots, tasks: seq<Task>, c: Handle)
  {
    && c < |slots| && slots[c].Closed?
    && (forall i | 0 <= i < |slots| :: !OpenFor(slots[i], c))
    && (forall t | 0 <= t < |tasks| :: !StartsFor(tasks[t], c))
  }

  /** A task that waits is listed by the starting item it waits for, or has been notified, or the
      slot was closed under it. */
  ghost predicate Listening(slots: Slots, notified: set<TaskId>, t: TaskId, task: Task)
  {
    task.Waiting? ==>
      && task.on < |slots|
      && (|| slots[task.on].Closed?
          || t in notified
          || (IsStarting(slots[task.on].item) && t in slots[task.on].item.waiters))
  }

  ghost predicate Inv(s: State)
  {
    && GuardsHold(s.slots, s.tasks)
    && UniqueResources(s.slots)
    && ReferencesComeFirst(s.slots)
    && TasksFit(s.slots, s.live, s.tasks)
    && LiveIsOpen(s.slots, s.live)
    && (forall c | c in s.stopped :: Quiet(s.slots, s.tasks, c))
    && (forall t | 0 <= t < |s.tasks| :: Listening(s.slots, s.notified, t, s.tasks[t]))
  }

  // ---------- slots: what evolving keeps ----------

  lemma EvolvingKeepsUnique(a: Slots, b: Slots)
    requires UniqueResources(a) && Evolves(a, b)
    ensures UniqueResources(b[..|a|])
  {
  }

  lemma EvolvingKeepsOrder(a: Slots, b: Slots)
    requires ReferencesComeFirst(a) && Evolves(a, b)
    ensures ReferencesComeFirst(b[..|a|])
  {
  }

  lemma RegisteringKeepsSlots(slots: Slots, starting: Item, t: TaskId)
    requires UniqueResources(slots) && ReferencesComeFirst(slots) && IsStarting(starting)
    requires RefersBelow(starting, |slots|)
    ensures UniqueResources(RegisterWithInit(slots, starting, t).0)
    ensures ReferencesComeFirst(RegisterWithInit(slots, starting, t).0)
  {
    var after := RegisterWithInit(slots, starting, t).0;
    RegisterEvolves(slots, starting, t);
    EvolvingKeepsUnique(slots, after);
    EvolvingKeepsOrder(slots, after);
    FirstObjectionIsFirst(slots, starting);
    if |after| == |slots| {
      assert after[..|slots|] == after;
    } else {
      forall i | 0 <= i < |slots| && slots[i].Open? ensures !SameResource(slots[i].item, starting) {
        assert !Objects(slots[i], starting);
      }
    }
  }

  // ---------- elementary changes of the state keep the invariant ----------

  lemma EvolveSlots(s: State, b: Slots)
    requires Inv(s) && Evolves(s.slots, b)
    requires UniqueResources(b) && ReferencesComeFirst(b) && LiveIsOpen(b, s.live)
    requires forall c, i | c in s.stopped && |s.slots| <= i < |b| :: !OpenFor(b[i], c)
    ensures Inv(s.(slots := b))
  {
  }

  lemma GotoTask(s: State, t: TaskId, x: Task)
    requires Inv(s) && t < |s.tasks|
    requires Guards(x) ==> HoldsSlot(s.slots, x)
    requires forall u | 0 <= u < |s.tasks| && u != t && Guards(x) && Guards(s.tasks[u]) :: s.tasks[u].handle != x.handle
    requires TaskFits(s.slots, s.live, x)
    requires forall c | c in s.stopped :: !StartsFor(x, c)
    requires Listening(s.slots, s.notified, t, x)
    ensures Inv(Goto(s, t, x))
  {
  }

  lemma AddTask(s: State, x: Task)
    requires Inv(s) && !Guards(x) && !x.Waiting? && TaskFits(s.slots, s.live, x)
    ensures Inv(s.(tasks := s.tasks + [x]))
  {
  }

  /** The slot of a starting item is settled by its own guard, which its task has given up. */
  lemma SettleSlot(s: State, h: Handle, slot: Slot)
    requires Inv(s) && h < |s.slots| && s.slots[h].Open? && IsStarting(s.slots[h].item)
    requires forall t | 0 <= t < |s.tasks| && Guards(s.tasks[t]) :: s.tasks[t].handle != h
    requires slot == Closed || slot == Open(Started(s.slots[h].item))
    requires slot.Closed? ==> h !in s.live
    requires slot.Open? ==> s.slots[h].item.waiters <= s.notified
    requires forall c | c in s.stopped :: !OpenFor(slot, c)
    ensures Inv(s.(slots := s.slots[h := slot]))
  {
    var a, b := s.slots, s.slots[h := slot];
    forall i, j | 0 <= i < j < |b| && b[i].Open? && b[j].Open? ensures !SameResource(b[i].item, b[j].item) {
      assert !SameResource(a[i].item, a[j].item);
    }
    forall t | 0 <= t < |s.tasks| ensures TaskFits(b, s.live, s.tasks[t]) {
      assert TaskFits(a, s.live, s.tasks[t]);
    }
    forall c | c in s.stopped ensures Quiet(b, s.tasks, c) {
      assert Quiet(a, s.tasks, c);
    }
    forall t | 0 <= t < |s.tasks| ensures Listening(b, s.notified, t, s.tasks[t]) {
      assert Listening(a, s.notified, t, s.tasks[t]);
    }
  }

  lemma StopLiving(s: State, h: Handle)
    requires Inv(s)
    ensures Inv(s.(live := s.live - {h}))
  {
  }

  /** A client starts to live while its own start holds the guard. */
  lemma StartLiving(s: State, t: TaskId)
    requires Inv(s) && t < |s.tasks| && s.tasks[t].Working? && s.tasks[t].starting.StartingClient?
    ensures Inv(s.(live := s.live + {s.tasks[t].handle}))
  {
  }

  // ---------- steps keep the invariant ----------

  lemma RegisterKeepsInv(s: State, t: TaskId, starting: Item)
    requires Inv(s) && t < |s.tasks| && s.tasks[t] == Register(starting)
    ensures Inv(RegisterStep(s, t, starting))
  {
    assert TaskFits(s.slots, s.live, s.tasks[t]);
    var (slots, outcome) := RegisterWithInit(s.slots, starting, t);
    RegisterEvolves(s.slots, starting, t);
    RegisteringKeepsSlots(s.slots, starting, t);
    FirstObjectionIsFirst(s.slots, starting);
    forall h | h in s.live
      ensures h < |slots| && slots[h].Open? && (slots[h].item.Client? || slots[h].item.StartingClient?)
    {
      assert SlotEvolves(s.slots[h], slots[h]);
    }
    EvolveSlots(s, slots);
    var mid := s.(slots := slots);
    match outcome
    case Registered(h) =>
      forall u | 0 <= u < |s.tasks| && Guards(s.tasks[u]) ensures s.tasks[u].handle != h {
        assert HoldsSlot(s.slots, s.tasks[u]);
      }
      GotoTask(mid, t, Prepare(starting, h));
    case Already(_) => GotoTask(mid, t, Returned(true));
    case WaitFor(h) => GotoTask(mid, t, Waiting(h, Register(starting)));
  }

  /** A guard that moves on without touching its slot. */
  lemma GuardMovesOn(s: State, t: TaskId, x: Task)
    requires Inv(s) && t < |s.tasks| && Guards(s.tasks[t])
    requires Guards(x) && x.handle == s.tasks[t].handle && x.starting == s.tasks[t].starting
    requires !x.Working? ==> x.handle !in s.live
    requires forall c | c in s.stopped :: !StartsFor(x, c)
    ensures Inv(Goto(s, t, x))
  {
  }

  lemma PrepareKeepsInv(s: State, t: TaskId, starting: Item, h: Handle, ok: bool)
    requires Inv(s) && t < |s.tasks| && s.tasks[t] == Prepare(starting, h)
    ensures Inv(PrepareStep(s, t, starting, h, ok))
  {
    assert TaskFits(s.slots, s.live, s.tasks[t]);
    GuardMovesOn(s, t, Dropping(starting, h));
    if starting.StartingClient? {
      GuardMovesOn(s, t, Working(starting, h));
      StartLiving(Goto(s, t, Working(starting, h)), t);
    } else if (starting.StartingWorkspace? || starting.StartingHistory?) && IsClient(s.slots, starting.client) {
      forall c | c in s.stopped ensures !StartsFor(Working(starting, h), c) {
        assert Quiet(s.slots, s.tasks, c);
      }
      GuardMovesOn(s, t, Working(starting, h));
    } else if starting.StartingMountpoint? {
      GuardMovesOn(s, t, Working(starting, h));
    } else {
      assert HoldsSlot(s.slots, s.tasks[t]);
    }
  }

  lemma WorkKeepsInv(s: State, t: TaskId, starting: Item, h: Handle, ok: bool)
    requires Inv(s) && t < |s.tasks| && s.tasks[t] == Working(starting, h) && IsStarting(starting)
    ensures Inv(WorkStep(s, t, starting, h, ok))
  {
    assert HoldsSlot(s.slots, s.tasks[t]);
    if ok {
      var woken := s.slots[h].item.waiters;
      var s1 := Goto(s, t, Returned(true));
      GotoTask(s, t, Returned(true));
      var s2 := s1.(notified := s1.notified + woken);
      assert Inv(s2);
      assert Started(starting) == Started(s.slots[h].item);
      forall c | c in s.stopped ensures !OpenFor(Open(Started(starting)), c) {
        assert Quiet(s.slots, s.tasks, c) && !StartsFor(s.tasks[t], c);
      }
      SettleSlot(s2, h, Open(Started(starting)));
    } else {
      StopLiving(s, h);
      GuardMovesOn(s.(live := s.live - {h}), t, Dropping(starting, h));
    }
  }

  lemma DropKeepsInv(s: State, t: TaskId)
    requires Inv(s) && t < |s.tasks| && s.tasks[t].Dropping?
    ensures Inv(AdvanceTask(s, t, false))
  {
    var h := s.tasks[t].handle;
    assert HoldsSlot(s.slots, s.tasks[t]) && TaskFits(s.slots, s.live, s.tasks[t]);
    GotoTask(s, t, Returned(false));
    SettleSlot(Goto(s, t, Returned(false)), h, Closed);
  }

  /** Closing a started slot, as `take_and_close_handle` does. */
  lemma CloseKeepsInv(s: State, h: Handle)
    requires Inv(s) && h < |s.slots| && s.slots[h].Open? && !IsStarting(s.slots[h].item) && h !in s.live
    ensures Inv(s.(slots := Close(s.slots, h)))
  {
  }

  lemma ScanKeepsInv(s: State, startAt: Handle, target: StopTarget, t: TaskId)
    requires Inv(s)
    ensures Inv(s.(slots := Scan(s.slots, startAt, target, t).0))
  {
    var b := Scan(s.slots, startAt, target, t).0;
    ScanEvolves(s.slots, startAt, target, t);
    EvolvingKeepsUnique(s.slots, b);
    EvolvingKeepsOrder(s.slots, b);
    assert b[..|s.slots|] == b;
    forall h | h in s.live ensures h < |b| && b[h].Open? && (b[h].item.Client? || b[h].item.StartingClient?) {
      ScanKeepsClients(s.slots, startAt, target, t, h);
    }
    EvolveSlots(s, b);
  }

  lemma ScanKeepsClients(slots: Slots, startAt: Handle, target: StopTarget, t: TaskId, h: Handle)
    requires h < |slots| && slots[h].Open? && (slots[h].item.Client? || slots[h].item.StartingClient?)
    ensures |Scan(slots, startAt, target, t).0| == |slots| && Scan(slots, startAt, target, t).0[h] == slots[h]
  {
  }

  /** A scan that waits registered its task with the starting item it waits for. */
  lemma ScanListens(slots: Slots, startAt: Handle, target: StopTarget, t: TaskId)
    requires Scan(slots, startAt, target, t).1.Some?
    ensures var (after, wait) := Scan(slots, startAt, target, t);
            && wait.value < |after| && after[wait.value].Open?
            && IsStarting(after[wait.value].item) && t in after[wait.value].item.waiters
  {
    var scanned := slots[startAt..];
    FirstWaitIsFirst(scanned, target);
    OnlyStartingItemsAreWaitedFor(target, scanned[FirstWait(scanned, target)].item);
  }

  /** The heart of a client stop: when its scan has nothing to wait for, nothing of the client is
      open and no start that borrowed it is left. */
  lemma ScanMakesQuiet(s: State, t: TaskId, c: Handle)
    requires Inv(s) && t < |s.tasks| && s.tasks[t] == StopScan(c)
    requires Scan(s.slots, c, StopClient(c), t).1.None?
    ensures Quiet(Scan(s.slots, c, StopClient(c), t).0, s.tasks, c)
  {
    var a, b := s.slots, Scan(s.slots, c, StopClient(c), t).0;
    assert TaskFits(a, s.live, s.tasks[t]);
    ScanEvolves(a, c, StopClient(c), t);
    assert SlotEvolves(a[c], b[c]);
    forall i | 0 <= i < |b| ensures !OpenFor(b[i], c) {
      assert SlotEvolves(a[i], b[i]);
      if c <= i {
        ScanWithoutWaitClears(a, c, StopClient(c), t, i);
      }
    }
    forall u | 0 <= u < |s.tasks| ensures !StartsFor(s.tasks[u], c) {
      NoStartIsLeft(s, t, c, u);
    }
  }

  lemma NoStartIsLeft(s: State, t: TaskId, c: Handle, u: TaskId)
    requires Inv(s) && u < |s.tasks|
    requires Scan(s.slots, c, StopClient(c), t).1.None?
    ensures !StartsFor(s.tasks[u], c)
  {
    if StartsFor(s.tasks[u], c) {
      assert HoldsSlot(s.slots, s.tasks[u]);
      ScanWithoutWaitClears(s.slots, c, StopClient(c), t, s.tasks[u].handle);
    }
  }

  lemma ClientScanKeepsInv(s: State, t: TaskId, c: Handle)
    requires Inv(s) && t < |s.tasks| && s.tasks[t] == StopScan(c)
    ensures Inv(ClientScanStep(s, t, c))
  {
    var (b, wait) := Scan(s.slots, c, StopClient(c), t);
    ScanKeepsInv(s, c, StopClient(c), t);
    var mid := s.(slots := b);
    assert TaskFits(b, s.live, mid.tasks[t]);
    if wait.Some? {
      ScanListens(s.slots, c, StopClient(c), t);
      GotoTask(mid, t, Waiting(wait.value, StopScan(c)));
    } else {
      ScanMakesQuiet(s, t, c);
      var quiet := mid.(stopped := s.stopped + {c});
      assert Inv(quiet);
      GotoTask(quiet, t, Returned(true));
    }
  }

  lemma WorkspaceScanKeepsInv(s: State, t: TaskId, ok: bool)
    requires Inv(s) && t < |s.tasks| && s.tasks[t].WorkspaceStopScan?
    ensures Inv(AdvanceTask(s, t, ok))
  {
    var WorkspaceStopScan(w, c) := s.tasks[t];
    var (b, wait) := Scan(s.slots, c, StopWorkspace(w), t);
    ScanKeepsInv(s, c, StopWorkspace(w), t);
    assert TaskFits(b, s.live, s.tasks[t]);
    if wait.Some? {
      ScanListens(s.slots, c, StopWorkspace(w), t);
      GotoTask(s.(slots := b), t, Waiting(wait.value, WorkspaceStopScan(w, c)));
    } else {
      GotoTask(s.(slots := b), t, Returned(true));
    }
  }

  lemma StopKeepsInv(s: State, t: TaskId, ok: bool)
    requires Inv(s) && t < |s.tasks|
    requires s.tasks[t].StopBorrow? || s.tasks[t].StopRunning? || s.tasks[t].StopClose?
    ensures Inv(AdvanceTask(s, t, ok))
  {
    assert TaskFits(s.slots, s.live, s.tasks[t]);
    GotoTask(s, t, Returned(false));
    match s.tasks[t]
    case StopBorrow(c) => if IsClient(s.slots, c) { GotoTask(s, t, StopRunning(c)); }
    case StopRunning(c) =>
      StopLiving(s, c);
      GotoTask(s.(live := s.live - {c}), t, StopClose(c));
    case StopClose(c) =>
      if IsClient(s.slots, c) {
        CloseKeepsInv(s, c);
        GotoTask(s.(slots := Close(s.slots, c)), t, StopScan(c));
      }
  }

  lemma BorrowKeepsInv(s: State, t: TaskId, ok: bool)
    requires Inv(s) && t < |s.tasks|
    requires s.tasks[t].MountBorrow? || s.tasks[t].WorkspaceStopTake? || s.tasks[t].WorkspaceStopBorrow?
          || s.tasks[t].WorkspaceStopRunning?
    ensures Inv(AdvanceTask(s, t, ok))
  {
    assert TaskFits(s.slots, s.live, s.tasks[t]);
    GotoTask(s, t, Returned(false));
    match s.tasks[t]
    case MountBorrow(w) =>
      if IsWorkspace(s.slots, w) { GotoTask(s, t, Register(StartingMountpoint(s.slots[w].item.client, w, {}))); }
    case WorkspaceStopTake(w) =>
      if IsWorkspace(s.slots, w) {
        CloseKeepsInv(s, w);
        GotoTask(s.(slots := Close(s.slots, w)), t, WorkspaceStopBorrow(w, s.slots[w].item.client));
      }
    case WorkspaceStopBorrow(w, c) => GotoTask(s, t, WorkspaceStopRunning(w, c));
    case WorkspaceStopRunning(w, c) => GotoTask(s, t, WorkspaceStopScan(w, c));
  }

  lemma AdvanceKeepsInv(s: State, t: TaskId, ok: bool)
    requires Inv(s) && t < |s.tasks|
    ensures Inv(AdvanceTask(s, t, ok))
  {
    hide Inv;
    match s.tasks[t]
    case Register(starting) => if IsStarting(starting) { RegisterKeepsInv(s, t, starting); }
    case Prepare(starting, h) => PrepareKeepsInv(s, t, starting, h, ok);
    case Working(starting, h) => if IsStarting(starting) { WorkKeepsInv(s, t, starting, h, ok); }
    case Dropping(_, _) => DropKeepsInv(s, t);
    case StopScan(c) => ClientScanKeepsInv(s, t, c);
    case WorkspaceStopScan(_, _) => WorkspaceScanKeepsInv(s, t, ok);
    case StopBorrow(_) => StopKeepsInv(s, t, ok);
    case StopRunning(_) => StopKeepsInv(s, t, ok);
    case StopClose(_) => StopKeepsInv(s, t, ok);
    case MountBorrow(_) => BorrowKeepsInv(s, t, ok);
    case WorkspaceStopTake(_) => BorrowKeepsInv(s, t, ok);
    case WorkspaceStopBorrow(_, _) => BorrowKeepsInv(s, t, ok);
    case WorkspaceStopRunning(_, _) => BorrowKeepsInv(s, t, ok);
    case _ =>
  }

  lemma WakeKeepsInv(s: State, t: TaskId)
    requires Inv(s) && t < |s.tasks| && s.tasks[t].Waiting? && t in s.notified
    ensures Inv(s.(tasks := s.tasks[t := s.tasks[t].resume], notified := s.notified - {t}))
  {
  }

  lemma OpenExportHistoryKeepsInv(s: State)
    requires Inv(s)
    ensures Inv(s.(slots := s.slots + [Open(History(None))]))
  {
  }

  lemma StepKeepsInv(s: State, e: Event)
    requires Inv(s)
    ensures Inv(Step(s, e))
  {
    match e
    case Call(task) => if IsCall(task, |s.slots|) { AddTask(s, task); }
    case Advance(t, ok) => if t < |s.tasks| { AdvanceKeepsInv(s, t, ok); }
    case Wake(t) => if t < |s.tasks| && s.tasks[t].Waiting? && t in s.notified { WakeKeepsInv(s, t); }
    case Unmount(h) => if Step(s, e) != s { CloseKeepsInv(s, h); }
    case HistoryStop(h) => if Step(s, e) != s { CloseKeepsInv(s, h); }
    case OpenExportHistory => OpenExportHistoryKeepsInv(s);
  }

  /** Every reachable state satisfies the invariant. */
  lemma {:induction false} RunKeepsInv(s: State, events: seq<Event>)
    requires Inv(s)
    ensures Inv(Run(s, events))
    decreases |events|
  {
    if events != [] {
      StepKeepsInv(s, events[0]);
      RunKeepsInv(Step(s, events[0]), events[1..]);
    }
  }

  lemma InitialHoldsInv()
    ensures Inv(Initial)
  {
  }

  // ---------- results ----------

  ghost predicate Reachable(s: State)
  {
    exists events :: s == Run(Initial, events)
  }

  lemma ReachableHoldsInv(s: State)
    requires Reachable(s)
    ensures Inv(s)
  {
    var events :| s == Run(Initial, events);
    InitialHoldsInv();
    RunKeepsInv(Initial, events);
  }

  lemma {:induction false} StoppedStaysStopped(s: State, events: seq<Event>, c: Handle)
    requires c in s.stopped
    ensures c in Run(s, events).stopped
    decreases |events|
  {
    if events != [] {
      StoppedStaysStopped(Step(s, events[0]), events[1..], c);
    }
  }

  /** Once `client_stop` has returned Ok for a client, no workspace and no workspace history of that
      client is open, then or after any further events. */
  lemma StoppedClientStaysQuiet(s: State, events: seq<Event>, c: Handle)
    requires Reachable(s) && c in s.stopped
    ensures forall i | 0 <= i < |Run(s, events).slots| :: !OpenFor(Run(s, events).slots[i], c)
  {
    ReachableHoldsInv(s);
    RunKeepsInv(s, events);
    StoppedStaysStopped(s, events, c);
  }

  function DeviceOf(item: Item): Option<nat>
  {
    if item.Client? || item.StartingClient? then Some(item.device) else None
  }

  /** Two clients that run at the same time are for different devices, whatever starts and stops,
      concurrent or stale, are in progress. */
  lemma OneRunningClientPerDevice(s: State, h: Handle, k: Handle)
    requires Reachable(s) && h in s.live && k in s.live && h != k
    ensures h < |s.slots| && k < |s.slots| && s.slots[h].Open? && s.slots[k].Open?
    ensures DeviceOf(s.slots[h].item).Some? && DeviceOf(s.slots[k].item).Some?
    ensures DeviceOf(s.slots[h].item) != DeviceOf(s.slots[k].item)
  {
    ReachableHoldsInv(s);
  }

  /** At most one slot, open or starting, per device, per client and realm, and per mounted
      workspace. */
  lemma OneSlotPerResource(s: State, h: Handle, k: Handle)
    requires Reachable(s) && h < |s.slots| && k < |s.slots| && h != k && s.slots[h].Open? && s.slots[k].Open?
    ensures !SameResource(s.slots[h].item, s.slots[k].item)
  {
    ReachableHoldsInv(s);
    if k < h { assert !SameResource(s.slots[k].item, s.slots[h].item); }
  }

  /** The `unreachable!()` arms are never reached: a guard always finds the item it registered, and
      no other guard has the same slot. */
  lemma GuardFindsItsItem(s: State, t: TaskId, u: TaskId)
    requires Reachable(s) && t < |s.tasks| && Guards(s.tasks[t])
    ensures HoldsSlot(s.slots, s.tasks[t])
    ensures u < |s.tasks| && u != t && Guards(s.tasks[u]) ==> s.tasks[u].handle != s.tasks[t].handle
  {
    ReachableHoldsInv(s);
  }

  lemma AdvanceEvolvesSlots(s: State, t: TaskId, ok: bool, i: Handle)
    requires t < |s.tasks| && i < |s.slots| && (s.tasks[t].StopClose? ==> WasClient(s.slots, s.tasks[t].client))
    ensures |s.slots| <= |AdvanceTask(s, t, ok).slots|
    ensures SlotEvolves(s.slots[i], AdvanceTask(s, t, ok).slots[i]) || (Guards(s.tasks[t]) && s.tasks[t].handle == i)
  {
    hide RegisterWithInit, Scan;
    match s.tasks[t]
    case Register(starting) => RegisterEvolves(s.slots, starting, t);
    case StopScan(c) => ScanEvolves(s.slots, c, StopClient(c), t);
    case WorkspaceStopScan(w, c) => ScanEvolves(s.slots, c, StopWorkspace(w), t);
    case _ =>
  }

  /** A step never reopens a closed slot or reissues its handle, and only a guard's own task changes
      a starting item other than by adding listeners. */
  lemma StepEvolvesSlots(s: State, e: Event, i: Handle)
    requires Reachable(s) && i < |s.slots|
    ensures |s.slots| <= |Step(s, e).slots|
    ensures SlotEvolves(s.slots[i], Step(s, e).slots[i])
         || (e.Advance? && e.t < |s.tasks| && Guards(s.tasks[e.t]) && s.tasks[e.t].handle == i)
  {
    ReachableHoldsInv(s);
    if e.Advance? && e.t < |s.tasks| {
      assert TaskFits(s.slots, s.live, s.tasks[e.t]);
      hide AdvanceTask, Inv;
      AdvanceEvolvesSlots(s, e.t, e.ok, i);
    }
  }

  lemma {:induction false} ClosedStaysClosed(s: State, events: seq<Event>, h: Handle)
    requires Inv(s) && h < |s.slots| && s.slots[h].Closed?
    ensures h < |Run(s, events).slots| && Run(s, events).slots[h].Closed?
    decreases |events|
  {
    if events != [] {
      ClosedAfterStep(s, events[0], h);
      StepKeepsInv(s, events[0]);
      ClosedStaysClosed(Step(s, events[0]), events[1..], h);
    }
  }

  lemma ClosedAfterStep(s: State, e: Event, h: Handle)
    requires Inv(s) && h < |s.slots| && s.slots[h].Closed?
    ensures h < |Step(s, e).slots| && Step(s, e).slots[h].Closed?
  {
    if e.Advance? && e.t < |s.tasks| {
      var t := e.t;
      if Guards(s.tasks[t]) { assert HoldsSlot(s.slots, s.tasks[t]); }
      assert TaskFits(s.slots, s.live, s.tasks[t]);
      hide AdvanceTask, Inv;
      AdvanceEvolvesSlots(s, t, e.ok, h);
    }
  }

  /** Skipping the slots before the client loses nothing: both stops' scans do what a scan of the
      whole vector would do. */
  lemma ScansMissNothing(s: State, t: TaskId)
    requires Reachable(s) && t < |s.tasks| && (s.tasks[t].StopScan? || s.tasks[t].WorkspaceStopScan?)
    ensures var task := s.tasks[t];
            var target := if task.StopScan? then StopClient(task.client) else StopWorkspace(task.workspace);
            Scan(s.slots, task.client, target, t) == Scan(s.slots, 0, target, t)
  {
    ReachableHoldsInv(s);
    var task := s.tasks[t];
    assert TaskFits(s.slots, s.live, task);
    var target := if task.StopScan? then StopClient(task.client) else StopWorkspace(task.workspace);
    forall i | 0 <= i < task.client && s.slots[i].Open? ensures Filter(target, s.slots[i].item).KeepIt? {
      assert RefersBelow(s.slots[i].item, i);
    }
    ScanSkipsNothing(s.slots, task.client, target, t);
  }

  /** A start that succeeds wakes every task that waits for its slot. */
  lemma InitializingWakesListeners(s: State, t: TaskId, u: TaskId)
    requires Reachable(s) && t < |s.tasks| && s.tasks[t].Working?
    requires u < |s.tasks| && s.tasks[u].Waiting? && s.tasks[u].on == s.tasks[t].handle
    ensures u in Step(s, Advance(t, true)).notified
  {
    ReachableHoldsInv(s);
    assert HoldsSlot(s.slots, s.tasks[t]);
    assert Listening(s.slots, s.notified, u, s.tasks[u]);
  }

  // ---------- reaching states ----------

  lemma {:induction false} RunSnoc(s: State, events: seq<Event>, e: Event)
    ensures Run(s, events + [e]) == Step(Run(s, events), e)
    decreases |events|
  {
    if events == [] {
      assert [e][1..] == [];
      assert Run(Step(s, e), []) == Step(s, e);
      assert events + [e] == [e];
    } else {
      assert (events + [e])[1..] == events[1..] + [e];
      RunSnoc(Step(s, events[0]), events[1..], e);
    }
  }

  lemma ReachableStep(s: State, e: Event)
    requires Reachable(s)
    ensures Reachable(Step(s, e))
  {
    var events :| s == Run(Initial, events);
    RunSnoc(Initial, events, e);
  }

  /** A start that meets no obstacle: register, prepare, work, initialise. */
  lemma StartSucceeds(s: State, starting: Item) returns (after: State)
    requires Reachable(s) && IsCall(Register(starting), |s.slots|)
    requires starting.StartingClient? || IsClient(s.slots, starting.client)
    requires forall i | 0 <= i < |s.slots| :: !Objects(s.slots[i], starting)
    ensures Reachable(after)
    ensures after.slots == s.slots + [Open(Started(starting))]
    ensures after.tasks == s.tasks + [Returned(true)]
    ensures after.stopped == s.stopped
  {
    var t, h, go := |s.tasks|, |s.slots|, Advance(|s.tasks|, true);
    FirstObjectionIsFirst(s.slots, starting);
    var s0 := Step(s, Call(Register(starting)));
    ReachableStep(s, Call(Register(starting)));
    var s1 := Step(s0, go);
    ReachableStep(s0, go);
    assert s1.slots == s.slots + [Open(starting)] && s1.tasks == s.tasks + [Prepare(starting, h)];
    var s2 := Step(s1, go);
    ReachableStep(s1, go);
    assert s2.slots == s1.slots && s2.tasks == s.tasks + [Working(starting, h)];
    after := Step(s2, go);
    ReachableStep(s2, go);
  }

  lemma ClientStopSucceeds(s: State, c: Handle) returns (after: State)
    requires Reachable(s) && IsClient(s.slots, c) && Scan(Close(s.slots, c), c, StopClient(c), |s.tasks|).1.None?
    ensures Reachable(after) && c in after.stopped
    ensures after.slots == Scan(Close(s.slots, c), c, StopClient(c), |s.tasks|).0
    ensures after.tasks == s.tasks + [Returned(true)]
  {
    var go := Advance(|s.tasks|, true);
    var s0 := Step(s, Call(StopBorrow(c)));
    ReachableStep(s, Call(StopBorrow(c)));
    var s1 := Step(s0, go);
    ReachableStep(s0, go);
    assert s1.slots == s.slots && s1.tasks == s.tasks + [StopRunning(c)];
    var s2 := Step(s1, go);
    ReachableStep(s1, go);
    assert s2.slots == s.slots && s2.tasks == s.tasks + [StopClose(c)];
    var s3 := Step(s2, go);
    ReachableStep(s2, go);
    assert s3.slots == Close(s.slots, c) && s3.tasks == s.tasks + [StopScan(c)];
    after := Step(s3, go);
    ReachableStep(s3, go);
  }

  // ---------- what the calls achieve ----------

  /** What a stop is told to close: what names its client, or is a mountpoint of its workspace; what is
      still starting is waited for. */
  lemma FilterIff(target: StopTarget, item: Item)
    ensures var named := if target.StopClient? then NamedClient(item) == Some(target.client)
                         else NamedWorkspace(item) == Some(target.workspace);
            && (Filter(target, item).CloseIt? <==> named && !IsStarting(item))
            && (Filter(target, item).WaitForIt? <==> named && IsStarting(item))
  {
  }

  /** Starting keeps the device, the client, the realm and the workspace. */
  lemma StartedKeepsNames(starting: Item)
    requires IsStarting(starting)
    ensures var item := Started(starting);
            && !IsStarting(item) && DeviceOf(item) == DeviceOf(starting)
            && NamedClient(item) == NamedClient(starting) && NamedWorkspace(item) == NamedWorkspace(starting)
            && (SameResource(starting, item) || (starting.StartingHistory? && item.History?))
  {
  }

  predicate IsStart(task: Task)
  {
    task.Register? || Guards(task)
  }

  /** A start that returns Ok leaves an open slot with what was to be started. */
  lemma StartReturnsOpenSlot(s: State, t: TaskId, ok: bool) returns (h: Handle)
    requires Reachable(s) && t < |s.tasks| && IsStart(s.tasks[t])
    requires t < |AdvanceTask(s, t, ok).tasks| && AdvanceTask(s, t, ok).tasks[t] == Returned(true)
    ensures var slots := AdvanceTask(s, t, ok).slots;
            && h < |slots| && slots[h].Open? && !IsStarting(slots[h].item)
            && (SameResource(s.tasks[t].starting, slots[h].item)
                || (s.tasks[t].starting.StartingHistory? && slots[h].item == History(Some(s.tasks[t].starting.client))))
  {
    ReachableHoldsInv(s);
    assert TaskFits(s.slots, s.live, s.tasks[t]);
    if Guards(s.tasks[t]) { assert HoldsSlot(s.slots, s.tasks[t]); }
    hide Inv;
    var starting := s.tasks[t].starting;
    if s.tasks[t].Register? {
      RegistrationMeans(s.slots, starting, t);
      h := RegisterWithInit(s.slots, starting, t).1.handle;
    } else {
      h := s.tasks[t].handle;
      StartedKeepsNames(starting);
    }
  }

  /** A start that fails leaves its slot closed. */
  lemma FailedStartLeavesNothing(s: State, t: TaskId, ok: bool)
    requires Reachable(s) && t < |s.tasks| && Guards(s.tasks[t])
    requires t < |AdvanceTask(s, t, ok).tasks| && AdvanceTask(s, t, ok).tasks[t] == Returned(false)
    ensures s.tasks[t].handle < |AdvanceTask(s, t, ok).slots| && AdvanceTask(s, t, ok).slots[s.tasks[t].handle].Closed?
  {
    ReachableHoldsInv(s);
    assert HoldsSlot(s.slots, s.tasks[t]);
  }

  predicate IsClientStop(task: Task, c: Handle)
  {
    (task.StopBorrow? || task.StopRunning? || task.StopClose? || task.StopScan?) && task.client == c
  }

  /** A client stop that returns Ok has stopped the client: its slot is closed, it does not run, and
      nothing of it is open or starting. */
  lemma ClientStopIsComplete(s: State, t: TaskId, ok: bool, c: Handle)
    requires Reachable(s) && t < |s.tasks| && IsClientStop(s.tasks[t], c)
    requires t < |AdvanceTask(s, t, ok).tasks| && AdvanceTask(s, t, ok).tasks[t] == Returned(true)
    ensures var after := AdvanceTask(s, t, ok);
            && c in after.stopped && c !in after.live
            && c < |after.slots| && after.slots[c].Closed?
            && forall i | 0 <= i < |after.slots| && after.slots[i].Open? :: NamedClient(after.slots[i].item) != Some(c)
  {
    ReachableHoldsInv(s);
    assert TaskFits(s.slots, s.live, s.tasks[t]);
    var after := AdvanceTask(s, t, ok);
    ScanEvolves(s.slots, c, StopClient(c), t);
    assert SlotEvolves(s.slots[c], after.slots[c]);
    forall i | 0 <= i < |after.slots| && after.slots[i].Open? ensures NamedClient(after.slots[i].item) != Some(c) {
      assert SlotEvolves(s.slots[i], after.slots[i]);
      if c <= i {
        ScanWithoutWaitClears(s.slots, c, StopClient(c), t, i);
        FilterIff(StopClient(c), after.slots[i].item);
      } else {
        assert RefersBelow(s.slots[i].item, i);
      }
    }
  }

  predicate IsWorkspaceStop(task: Task, w: Handle)
  {
    && (|| task.WorkspaceStopTake? || task.WorkspaceStopBorrow? || task.WorkspaceStopRunning?
        || task.WorkspaceStopScan?)
    && task.workspace == w
  }

  /** A workspace stop that returns Ok leaves the workspace closed and none of its mountpoints open or
      starting. */
  lemma WorkspaceStopIsComplete(s: State, t: TaskId, ok: bool, w: Handle)
    requires Reachable(s) && t < |s.tasks| && IsWorkspaceStop(s.tasks[t], w)
    requires t < |AdvanceTask(s, t, ok).tasks| && AdvanceTask(s, t, ok).tasks[t] == Returned(true)
    ensures var slots := AdvanceTask(s, t, ok).slots;
            && w < |slots| && slots[w].Closed?
            && forall i | 0 <= i < |slots| && slots[i].Open? :: NamedWorkspace(slots[i].item) != Some(w)
  {
    ReachableHoldsInv(s);
    assert TaskFits(s.slots, s.live, s.tasks[t]);
    var c, after := s.tasks[t].client, AdvanceTask(s, t, ok);
    ScanEvolves(s.slots, c, StopWorkspace(w), t);
    assert SlotEvolves(s.slots[w], after.slots[w]);
    forall i | 0 <= i < |after.slots| && after.slots[i].Open? ensures NamedWorkspace(after.slots[i].item) != Some(w) {
      assert SlotEvolves(s.slots[i], after.slots[i]);
      if c <= i {
        ScanWithoutWaitClears(s.slots, c, StopWorkspace(w), t, i);
        FilterIff(StopWorkspace(w), after.slots[i].item);
      } else {
        assert RefersBelow(s.slots[i].item, i);
      }
    }
  }

  lemma ScanLeavesOthers(slots: Slots, startAt: Handle, target: StopTarget, t: TaskId, i: Handle)
    requires i < |slots| && (slots[i].Open? ==> Filter(target, slots[i].item).KeepIt?)
    ensures |Scan(slots, startAt, target, t).0| == |slots| && Scan(slots, startAt, target, t).0[i] == slots[i]
  {
    if startAt <= i { assert slots[startAt..][i - startAt] == slots[i]; }
  }

  /** A stop touches nothing but its own slot and what names its client, or its workspace. */
  lemma StopsTouchTheirOwn(s: State, t: TaskId, ok: bool, h: Handle, i: Handle)
    requires t < |s.tasks| && i < |s.slots| && i != h
    requires || (IsClientStop(s.tasks[t], h) && (s.slots[i].Open? ==> NamedClient(s.slots[i].item) != Some(h)))
             || (IsWorkspaceStop(s.tasks[t], h) && (s.slots[i].Open? ==> NamedWorkspace(s.slots[i].item) != Some(h)))
    ensures i < |AdvanceTask(s, t, ok).slots| && AdvanceTask(s, t, ok).slots[i] == s.slots[i]
  {
    hide Scan, Filter;
    if s.tasks[t].StopScan? {
      var target := StopClient(s.tasks[t].client);
      if s.slots[i].Open? { FilterIff(target, s.slots[i].item); }
      ScanLeavesOthers(s.slots, s.tasks[t].client, target, t, i);
    } else if s.tasks[t].WorkspaceStopScan? {
      var target := StopWorkspace(s.tasks[t].workspace);
      if s.slots[i].Open? { FilterIff(target, s.slots[i].item); }
      ScanLeavesOthers(s.slots, s.tasks[t].client, target, t, i);
    }
  }

  /** Unmounting and stopping a history close the slot they are given, if it is of that kind, and touch
      nothing else. */
  lemma SingleStopsCloseTheirSlot(s: State, h: Handle, i: Handle)
    requires i < |s.slots|
    ensures var after := Step(s, Unmount(h));
            && after == s.(slots := after.slots) && |after.slots| == |s.slots|
            && after.slots[i] == if i == h && s.slots[i].Open?
               && s.slots[i].item.Mountpoint? then Closed else s.slots[i]
    ensures var after := Step(s, HistoryStop(h));
            && after == s.(slots := after.slots) && |after.slots| == |s.slots|
            && after.slots[i] == if i == h && s.slots[i].Open? && s.slots[i].item.History? then Closed else s.slots[i]
  {
  }
}
