/** The process-wide vector of handles (libparsec/src/handle.rs).

    A handle is an index; a slot is never reused. Every function below is one section under the
    registry's mutex, and the class at the end runs them in place. The `waiters` of a starting item
    stand for its `to_wake_on_done` events: each names the task that listens. */
module HandleRegistry {
  import opened Wrappers

  type Handle = nat
  type TaskId = nat

  datatype Item =
    | StartingClient(device: nat, waiters: set<TaskId>)
    | Client(device: nat)
    | StartingWorkspace(client: Handle, realm: nat, waiters: set<TaskId>)
    | Workspace(client: Handle, realm: nat)
    | StartingMountpoint(client: Handle, workspace: Handle, waiters: set<TaskId>)
    | Mountpoint(client: Handle, workspace: Handle)
    | StartingHistory(client: Handle, waiters: set<TaskId>)
    | History(maybeClient: Option<Handle>)

  datatype Slot = Closed | Open(item: Item)

  type Slots = seq<Slot>

  /** The first slot is reserved so that no handle is 0. */
  const InitialSlots: Slots := [Closed]

  predicate IsStarting(item: Item)
  {
    item.StartingClient? || item.StartingWorkspace? || item.StartingMountpoint? || item.StartingHistory?
  }

  /** A starting item without its listeners. */
  function Bare(item: Item): Item
  {
    if IsStarting(item) then item.(waiters := {}) else item
  }

  function AddWaiter(item: Item, task: TaskId): Item
    requires IsStarting(item)
  {
    item.(waiters := item.waiters + {task})
  }

  // ---------- registration ----------

  datatype Verdict = Pass | AlreadyRegistered | ConcurrentRegister

  /** The start functions' preconditions, put to one open slot. */
  function Precondition(starting: Item, existing: Item): Verdict
  {
    match (starting, existing)
    case (StartingClient(d, _), Client(x)) => if x == d then AlreadyRegistered else Pass
    case (StartingClient(d, _), StartingClient(x, _)) => if x == d then ConcurrentRegister else Pass
    case (StartingWorkspace(c, r, _), Workspace(xc, xr)) => if xc == c && xr == r then AlreadyRegistered else Pass
    case (StartingWorkspace(c, r, _), StartingWorkspace(xc, xr, _)) =>
      if xc == c && xr == r then ConcurrentRegister else Pass
    case (StartingMountpoint(_, w, _), Mountpoint(_, xw)) => if xw == w then AlreadyRegistered else Pass
    case (StartingMountpoint(_, w, _), StartingMountpoint(_, xw, _)) => if xw == w then ConcurrentRegister else Pass
    case _ => Pass
  }

  /** Two items that may not be open at the same time. */
  predicate SameResource(a: Item, b: Item)
  {
    || ((a.Client? || a.StartingClient?) && (b.Client? || b.StartingClient?) && a.device == b.device)
    || ((a.Workspace? || a.StartingWorkspace?) && (b.Workspace? || b.StartingWorkspace?)
        && a.client == b.client && a.realm == b.realm)
    || ((a.Mountpoint? || a.StartingMountpoint?) && (b.Mountpoint? || b.StartingMountpoint?)
        && a.workspace == b.workspace)
  }

  predicate Objects(slot: Slot, starting: Item)
  {
    slot.Open? && !Precondition(starting, slot.item).Pass?
  }

  /** Index of the first slot that objects, or the length when none does. */
  function FirstObjection(slots: Slots, starting: Item): nat
  {
    if slots == [] || Objects(slots[0], starting) then 0 else 1 + FirstObjection(slots[1..], starting)
  }

  datatype Registration = Registered(handle: Handle) | Already(handle: Handle) | WaitFor(handle: Handle)

  function RegisterWithInit(slots: Slots, starting: Item, task: TaskId): (Slots, Registration)
  {
    var i := FirstObjection(slots, starting);
    FirstObjectionIsFirst(slots, starting);
    if i == |slots| then (slots + [Open(starting)], Registered(i))
    else if Precondition(starting, slots[i].item).AlreadyRegistered? then (slots, Already(i))
    else (slots[i := Open(AddWaiter(slots[i].item, task))], WaitFor(i))
  }

  lemma {:induction false} FirstObjectionIsFirst(slots: Slots, starting: Item)
    ensures FirstObjection(slots, starting) <= |slots|
    ensures forall i | 0 <= i < FirstObjection(slots, starting) :: !Objects(slots[i], starting)
    ensures var i := FirstObjection(slots, starting); i < |slots| ==> Objects(slots[i], starting)
  {
    if slots != [] && !Objects(slots[0], starting) {
      FirstObjectionIsFirst(slots[1..], starting);
      forall i | 0 <= i < FirstObjection(slots, starting) ensures !Objects(slots[i], starting) {
        if i > 0 { assert slots[i] == slots[1..][i - 1]; }
      }
    }
  }

  /** What objects is an open slot of the same resource, and it is waited for as long as it starts. */
  lemma ObjectionIsSameResource(starting: Item, existing: Item)
    requires IsStarting(starting)
    ensures Precondition(starting, existing).Pass? <==> !SameResource(starting, existing)
    ensures Precondition(starting, existing).ConcurrentRegister? <==>
              SameResource(starting, existing) && IsStarting(existing)
  {
  }

  /** What a registration answers: a new slot exactly when nothing open is the same resource, otherwise
      the first slot that is, whose item is started or gets the caller as a listener. */
  lemma RegistrationMeans(slots: Slots, starting: Item, task: TaskId)
    requires IsStarting(starting)
    ensures var (after, outcome) := RegisterWithInit(slots, starting, task);
            && (outcome.Registered? <==>
                  forall i | 0 <= i < |slots| && slots[i].Open? :: !SameResource(starting, slots[i].item))
            && (outcome.Registered? ==> outcome.handle == |slots| && after == slots + [Open(starting)])
            && (!outcome.Registered? ==>
                  && outcome.handle < |slots| && slots[outcome.handle].Open?
                  && SameResource(starting, slots[outcome.handle].item)
                  && (forall i | 0 <= i < outcome.handle && slots[i].Open? :: !SameResource(starting, slots[i].item))
                  && (outcome.WaitFor? <==> IsStarting(slots[outcome.handle].item)))
            && (outcome.Already? ==> after == slots)
            && (outcome.WaitFor? ==>
                  after == slots[outcome.handle := Open(AddWaiter(slots[outcome.handle].item, task))])
  {
    FirstObjectionIsFirst(slots, starting);
    forall i | 0 <= i < |slots| && slots[i].Open?
      ensures Objects(slots[i], starting) <==> SameResource(starting, slots[i].item)
    {
      ObjectionIsSameResource(starting, slots[i].item);
    }
    var i := FirstObjection(slots, starting);
    if i < |slots| { ObjectionIsSameResource(starting, slots[i].item); }
  }

  /** The guard's `initialized`: an open slot gets the started item, and its listeners are woken. */
  function Initialize(slots: Slots, handle: Handle, started: Item): (Slots, set<TaskId>)
  {
    if handle < |slots| && slots[handle].Open? then
      (slots[handle := Open(started)],
       if IsStarting(slots[handle].item) then slots[handle].item.waiters else {})
    else (slots, {})
  }

  /** The guard's drop, and the end of a closed handle. */
  function Close(slots: Slots, handle: Handle): Slots
  {
    if handle < |slots| then slots[handle := Closed] else slots
  }

  // ---------- stops ----------

  datatype StopTarget = StopClient(client: Handle) | StopWorkspace(workspace: Handle)

  datatype FilterVerdict = CloseIt | WaitForIt | KeepIt

  function Filter(target: StopTarget, item: Item): FilterVerdict
  {
    match target
    case StopClient(c) =>
      match item {
        case Workspace(x, _) => if x == c then CloseIt else KeepIt
        case History(x) => if x == Some(c) then CloseIt else KeepIt
        case Mountpoint(x, _) => if x == c then CloseIt else KeepIt
        case StartingMountpoint(x, _, _) => if x == c then WaitForIt else KeepIt
        case StartingHistory(x, _) => if x == c then WaitForIt else KeepIt
        case StartingWorkspace(x, _, _) => if x == c then WaitForIt else KeepIt
        case _ => KeepIt
      }
    case StopWorkspace(w) =>
      match item {
        case Mountpoint(_, x) => if x == w then CloseIt else KeepIt
        case StartingMountpoint(_, x, _) => if x == w then WaitForIt else KeepIt
        case _ => KeepIt
      }
  }

  lemma OnlyStartingItemsAreWaitedFor(target: StopTarget, item: Item)
    ensures Filter(target, item).WaitForIt? ==> IsStarting(item)
    ensures Filter(target, item).CloseIt? ==> !IsStarting(item)
  {
  }

  function FilterSlot(target: StopTarget, slot: Slot): Slot
  {
    if slot.Open? && Filter(target, slot.item).CloseIt? then Closed else slot
  }

  predicate MustWait(target: StopTarget, slot: Slot)
  {
    slot.Open? && Filter(target, slot.item).WaitForIt?
  }

  /** Slots after one scan of all of them: matching items are closed, and the first item still
      starting, if any, gets the scanning task as a listener. */
  function ScanAll(slots: Slots, target: StopTarget, task: TaskId): Slots
  {
    seq(|slots|, k requires 0 <= k < |slots| => ScanSlot(slots[k], target, task, k == FirstWait(slots, target)))
  }

  function ScanSlot(slot: Slot, target: StopTarget, task: TaskId, first: bool): Slot
  {
    if first && MustWait(target, slot) then Open(AddWaiter(slot.item, task)) else FilterSlot(target, slot)
  }

  function FirstWait(slots: Slots, target: StopTarget): nat
  {
    if slots == [] || MustWait(target, slots[0]) then 0 else 1 + FirstWait(slots[1..], target)
  }

  lemma {:induction false} FirstWaitIsFirst(slots: Slots, target: StopTarget)
    ensures FirstWait(slots, target) <= |slots|
    ensures forall i | 0 <= i < FirstWait(slots, target) :: !MustWait(target, slots[i])
    ensures var i := FirstWait(slots, target); i < |slots| ==> MustWait(target, slots[i])
  {
    if slots != [] && !MustWait(target, slots[0]) {
      FirstWaitIsFirst(slots[1..], target);
      forall i | 0 <= i < FirstWait(slots, target) ensures !MustWait(target, slots[i]) {
        if i > 0 { assert slots[i] == slots[1..][i - 1]; }
      }
    }
  }

  /** The scan the stop functions make: it skips the slots before the stopped client's handle. */
  function Scan(slots: Slots, startAt: Handle, target: StopTarget, task: TaskId): (Slots, Option<Handle>)
  {
    if |slots| <= startAt then (slots, None)
    else
      var skipped, scanned := slots[..startAt], slots[startAt..];
      var i := FirstWait(scanned, target);
      (skipped + ScanAll(scanned, target, task), if i < |scanned| then Some(startAt + i) else None)
  }

  /** When nothing before `startAt` concerns the target, skipping changes nothing. */
  lemma ScanSkipsNothing(slots: Slots, startAt: Handle, target: StopTarget, task: TaskId)
    requires startAt <= |slots|
    requires forall i | 0 <= i < startAt && slots[i].Open? :: Filter(target, slots[i].item).KeepIt?
    ensures Scan(slots, startAt, target, task) == Scan(slots, 0, target, task)
  {
    var skipped, scanned := slots[..startAt], slots[startAt..];
    assert slots == skipped + scanned;
    assert slots[0..] == slots && slots[..0] == [];
    FirstWaitAfter(skipped, scanned, target);
    ScanAllAfter(skipped, scanned, target, task);
    assert [] + ScanAll(slots, target, task) == ScanAll(slots, target, task);
  }

  lemma ScanAllAfter(skipped: Slots, scanned: Slots, target: StopTarget, task: TaskId)
    requires forall i | 0 <= i < |skipped| && skipped[i].Open? :: Filter(target, skipped[i].item).KeepIt?
    ensures ScanAll(skipped + scanned, target, task) == skipped + ScanAll(scanned, target, task)
  {
    var whole := skipped + scanned;
    FirstWaitAfter(skipped, scanned, target);
    forall k | 0 <= k < |whole|
      ensures ScanAll(whole, target, task)[k] == (skipped + ScanAll(scanned, target, task))[k]
    {
      if k < |skipped| {
        assert whole[k] == skipped[k];
      } else {
        assert whole[k] == scanned[k - |skipped|];
      }
    }
  }

  lemma {:induction false} FirstWaitAfter(skipped: Slots, scanned: Slots, target: StopTarget)
    requires forall i | 0 <= i < |skipped| :: !MustWait(target, skipped[i])
    ensures FirstWait(skipped + scanned, target) == |skipped| + FirstWait(scanned, target)
  {
    if skipped == [] {
      assert skipped + scanned == scanned;
    } else {
      assert (skipped + scanned)[1..] == skipped[1..] + scanned;
      FirstWaitAfter(skipped[1..], scanned, target);
    }
  }

  // ---------- the registry itself ----------

  lemma {:induction false} FirstObjectionAfter(slots: Slots, starting: Item, n: nat)
    requires n <= |slots| && forall i | 0 <= i < n :: !Objects(slots[i], starting)
    ensures FirstObjection(slots, starting) == n + FirstObjection(slots[n..], starting)
  {
    if n == 0 {
      assert slots[0..] == slots;
    } else {
      assert slots[1..][n - 1..] == slots[n..];
      FirstObjectionAfter(slots[1..], starting, n - 1);
    }
  }

  class Registry {
    var slots: Slots

    constructor ()
      ensures slots == InitialSlots
    {
      slots := InitialSlots;
    }

    method RegisterHandleWithInit(starting: Item, task: TaskId) returns (outcome: Registration)
      modifies this
      ensures (slots, outcome) == RegisterWithInit(old(slots), starting, task)
    {
      var i := 0;
      while i < |slots|
        invariant 0 <= i <= |slots| && slots == old(slots)
        invariant forall k | 0 <= k < i :: !Objects(slots[k], starting)
      {
        if slots[i].Open? {
          var verdict := Precondition(starting, slots[i].item);
          FirstObjectionAfter(slots, starting, i);
          if verdict.AlreadyRegistered? { return Already(i); }
          if verdict.ConcurrentRegister? {
            slots := slots[i := Open(AddWaiter(slots[i].item, task))];
            return WaitFor(i);
          }
        }
        i := i + 1;
      }
      FirstObjectionAfter(slots, starting, i);
      slots := slots + [Open(starting)];
      outcome := Registered(i);
    }

    method RegisterHandle(item: Item) returns (handle: Handle)
      modifies this
      ensures handle == |old(slots)| && slots == old(slots) + [Open(item)]
    {
      handle := |slots|;
      slots := slots + [Open(item)];
    }

    method Initialized(handle: Handle, started: Item) returns (woken: set<TaskId>)
      modifies this
      ensures |slots| == |old(slots)| && forall i | 0 <= i < |slots| && i != handle :: slots[i] == old(slots)[i]
      ensures handle < |slots| ==> slots[handle] == if old(slots)[handle].Open? then Open(started) else Closed
      ensures forall t :: t in woken <==>
                handle < |old(slots)| && old(slots)[handle].Open? && IsStarting(old(slots)[handle].item)
                && t in old(slots)[handle].item.waiters
      ensures (slots, woken) == Initialize(old(slots), handle, started)
    {
      woken := {};
      if handle < |slots| && slots[handle].Open? {
        if IsStarting(slots[handle].item) { woken := slots[handle].item.waiters; }
        slots := slots[handle := Open(started)];
      }
    }

    method DropGuard(handle: Handle)
      modifies this
      ensures |slots| == |old(slots)| && forall i | 0 <= i < |slots| && i != handle :: slots[i] == old(slots)[i]
      ensures handle < |slots| ==> slots[handle].Closed?
      ensures slots == Close(old(slots), handle)
    {
      if handle < |slots| { slots := slots[handle := Closed]; }
    }

    method FilterCloseHandles(startAt: Handle, target: StopTarget, task: TaskId) returns (wait: Option<Handle>)
      modifies this
      ensures (slots, wait) == Scan(old(slots), startAt, target, task)
    {
      hide Filter, FirstWait;
      wait := None;
      if |slots| <= startAt { return; }
      ghost var scanned := slots[startAt..];
      FirstWaitIsFirst(scanned, target);
      ghost var first := FirstWait(scanned, target);
      var i := startAt;
      while i < |slots|
        invariant startAt <= i <= |slots| == |old(slots)|
        invariant forall k | 0 <= k < startAt :: slots[k] == old(slots)[k]
        invariant forall k | startAt <= k < i ::
                    slots[k] == ScanSlot(scanned[k - startAt], target, task, k - startAt == first)
        invariant forall k | i <= k < |slots| :: slots[k] == old(slots)[k] == scanned[k - startAt]
        invariant wait == if first < i - startAt then Some(startAt + first) else None
      {
        if slots[i].Open? {
          var verdict := Filter(target, slots[i].item);
          OnlyStartingItemsAreWaitedFor(target, slots[i].item);
          if verdict.CloseIt? {
            slots := slots[i := Closed];
          } else if verdict.WaitForIt? && wait.None? {
            slots := slots[i := Open(AddWaiter(slots[i].item, task))];
            wait := Some(i);
          }
        }
        i := i + 1;
      }
      assert slots == old(slots)[..startAt] + ScanAll(scanned, target, task);
    }

    /** Closes an open slot of the expected kind and hands its item over; anything else is an error
        and leaves the slot as it was. */
    method TakeAndCloseHandle(handle: Handle, expected: Item -> bool) returns (item: Option<Item>)
      modifies this
      ensures item.Some? <==> handle < |old(slots)| && old(slots)[handle].Open? && expected(old(slots)[handle].item)
      ensures item.Some? ==> item.value == old(slots)[handle].item
      ensures slots == if item.Some? then Close(old(slots), handle) else old(slots)
    {
      item := None;
      if handle < |slots| && slots[handle].Open? {
        var taken := slots[handle].item;
        if expected(taken) {
          slots := slots[handle := Closed];
          item := Some(taken);
        }
      }
    }
  }
}
