/** The user and device invitation flows on top of the handle registry (libparsec/src/invite.rs).

    Every step function takes its context out of one slot, closing it, works on it, and on success
    pushes the next stage in a new slot. Calls, cancellations, aborts and unrelated registrations
    interleave arbitrarily; an impossible event leaves the state alone. */
module InviteFlow {
  import opened Wrappers
  import HandleRegistry

  type Handle = HandleRegistry.Handle

  datatype Flow = UserClaim | DeviceClaim | UserGreet | DeviceGreet

  const LIST_ADMINISTRATORS: nat := 0   // user claim only, before its initial contexts exist
  const INITIAL: nat := 1
  const IN_PROGRESS_1: nat := 2
  const LAST_STAGE: nat := 5            // `Finalize` when claiming, `InProgress4` when greeting

  /** A context: its flow and stage, and the handle its chain of handles began with. */
  datatype Context = Context(flow: Flow, stage: nat, root: Handle)

  datatype ContextSlot = Closed | OtherItem | Holding(context: Context)

  /** `issued` remembers what each handle was given out for; `calls` are the step functions in
      progress, with the context they took. */
  datatype State = State(slots: seq<ContextSlot>, issued: seq<Option<Context>>, calls: seq<Option<Context>>)

  datatype Event =
    | Begin(flow: Flow, stage: nat)
    | RegisterOther
    | CloseOther(handle: Handle)
    | Take(handle: Handle, flow: Flow, stage: nat)  // a step function is called on a handle
    | Succeed(call: nat)
    | GiveUp(call: nat)                             // error, cancellation, or a denied trust
    | ListInitial(call: nat)                        // one initial context out of the administrators' list
    | Abort(handle: Handle)

  const InitialState: State := State([Closed], [None], [])

  function NextStage(context: Context): nat
  {
    if context.stage == LIST_ADMINISTRATORS then IN_PROGRESS_1 else context.stage + 1
  }

  function Push(s: State, context: Context): State
  {
    s.(slots := s.slots + [Holding(context)], issued := s.issued + [Some(context)])
  }

  predicate Active(s: State, call: nat)
  {
    call < |s.calls| && s.calls[call].Some?
  }

  function Step(s: State, e: Event): State
  {
    match e
    case Begin(flow, stage) =>
      if stage == INITIAL || (stage == LIST_ADMINISTRATORS && flow == UserClaim)
      then Push(s, Context(flow, stage, |s.slots|)) else s
    case RegisterOther => s.(slots := s.slots + [OtherItem], issued := s.issued + [None])
    case CloseOther(h) => if h < |s.slots| && s.slots[h].OtherItem? then s.(slots := s.slots[h := Closed]) else s
    case Take(h, flow, stage) =>
      if h < |s.slots| && s.slots[h].Holding? && s.slots[h].context.flow == flow && s.slots[h].context.stage == stage
      then s.(slots := s.slots[h := Closed], calls := s.calls + [Some(s.slots[h].context)]) else s
    case Succeed(call) =>
      if Active(s, call) then
        var context := s.calls[call].value;
        var done := s.(calls := s.calls[call := None]);
        if context.stage < LAST_STAGE then Push(done, context.(stage := NextStage(context))) else done
      else s
    case GiveUp(call) => if Active(s, call) then s.(calls := s.calls[call := None]) else s
    case ListInitial(call) =>
      if Active(s, call) && s.calls[call].value.stage == LIST_ADMINISTRATORS
      then Push(s, Context(UserClaim, INITIAL, |s.slots|)) else s
    case Abort(h) =>
      if h < |s.slots| && s.slots[h].Holding? && s.slots[h].context.stage != LIST_ADMINISTRATORS
      then s.(slots := s.slots[h := Closed]) else s
  }

  function Run(s: State, events: seq<Event>): State
    decreases |events|
  {
    if events == [] then s else Run(Step(s, events[0]), events[1..])
  }

  // ---------- the invariant ----------

  predicate SlotHas(slot: ContextSlot, root: Handle)
  {
    slot.Holding? && slot.context.root == root
  }

  predicate CallHas(call: Option<Context>, root: Handle)
  {
    call.Some? && call.value.root == root
  }

  /** A chain's context is in at most one place: one open slot, or one call. */
  ghost predicate OnePlace(s: State)
  {
    && (forall i, j | 0 <= i < j < |s.slots| && s.slots[i].Holding? :: !SlotHas(s.slots[j], s.slots[i].context.root))
    && (forall a, b | 0 <= a < b < |s.calls| && s.calls[a].Some? :: !CallHas(s.calls[b], s.calls[a].value.root))
    && (forall i, a | 0 <= i < |s.slots| && 0 <= a < |s.calls| && s.slots[i].Holding? ::
         !CallHas(s.calls[a], s.slots[i].context.root))
  }

  /** The context is at the latest stage of its chain. */
  ghost predicate Latest(s: State, context: Context)
  {
    && context.root < |s.issued|
    && context.stage <= LAST_STAGE
    && (forall h | 0 <= h < |s.issued| && s.issued[h].Some? && s.issued[h].value.root == context.root ::
          s.issued[h].value.stage <= context.stage && s.issued[h].value.flow == context.flow)
  }

  ghost predicate Inv(s: State)
  {
    && |s.issued| == |s.slots|
    && OnePlace(s)
    && (forall i | 0 <= i < |s.slots| && s.slots[i].Holding? :: Latest(s, s.slots[i].context))
    && (forall a | 0 <= a < |s.calls| && s.calls[a].Some? :: Latest(s, s.calls[a].value))
    && (forall h | 0 <= h < |s.issued| && s.issued[h].Some? ::
          s.issued[h].value.root <= h && s.issued[h].value.stage <= LAST_STAGE)
    && (forall h, k | 0 <= h < k < |s.issued| && s.issued[h].Some? && s.issued[k].Some?
                      && s.issued[h].value.root == s.issued[k].value.root ::
          s.issued[h].value.stage < s.issued[k].value.stage)
  }

  /** Pushing keeps the invariant if the context is nowhere and above every stage of its chain. */
  lemma PushKeepsInv(s: State, context: Context)
    requires Inv(s) && context.root <= |s.slots| && context.stage <= LAST_STAGE
    requires forall i | 0 <= i < |s.slots| :: !SlotHas(s.slots[i], context.root)
    requires forall a | 0 <= a < |s.calls| :: !CallHas(s.calls[a], context.root)
    requires forall h | 0 <= h < |s.issued| && s.issued[h].Some? && s.issued[h].value.root == context.root ::
               s.issued[h].value.stage < context.stage && s.issued[h].value.flow == context.flow
    ensures Inv(Push(s, context))
  {
    var t := Push(s, context);
    forall i | 0 <= i < |t.slots| && t.slots[i].Holding? ensures Latest(t, t.slots[i].context) {
      if i < |s.slots| { assert Latest(s, s.slots[i].context) && !SlotHas(s.slots[i], context.root); }
    }
    forall a | 0 <= a < |t.calls| && t.calls[a].Some? ensures Latest(t, t.calls[a].value) {
      assert Latest(s, s.calls[a].value) && !CallHas(s.calls[a], context.root);
    }
    assert OnePlace(t);
  }

  lemma FreshRoot(s: State)
    requires Inv(s)
    ensures forall i | 0 <= i < |s.slots| :: !SlotHas(s.slots[i], |s.slots|)
    ensures forall a | 0 <= a < |s.calls| :: !CallHas(s.calls[a], |s.slots|)
    ensures forall h | 0 <= h < |s.issued| && s.issued[h].Some? :: s.issued[h].value.root != |s.slots|
  {
  }

  lemma CloseKeepsInv(s: State, h: Handle)
    requires Inv(s) && h < |s.slots|
    ensures Inv(s.(slots := s.slots[h := Closed]))
  {
  }

  lemma TakeKeepsInv(s: State, h: Handle)
    requires Inv(s) && h < |s.slots| && s.slots[h].Holding?
    ensures Inv(s.(slots := s.slots[h := Closed], calls := s.calls + [Some(s.slots[h].context)]))
  {
  }

  lemma EndCallKeepsInv(s: State, call: nat)
    requires Inv(s) && Active(s, call)
    ensures Inv(s.(calls := s.calls[call := None]))
    ensures forall i | 0 <= i < |s.slots| :: !SlotHas(s.slots[i], s.calls[call].value.root)
    ensures forall a | 0 <= a < |s.calls| && a != call :: !CallHas(s.calls[a], s.calls[call].value.root)
  {
  }

  lemma SucceedKeepsInv(s: State, call: nat)
    requires Inv(s) && Active(s, call)
    ensures Inv(Step(s, Succeed(call)))
  {
    EndCallKeepsInv(s, call);
    var context := s.calls[call].value;
    var done := s.(calls := s.calls[call := None]);
    if context.stage < LAST_STAGE {
      assert Latest(s, context);
      forall i | 0 <= i < |done.slots| ensures !SlotHas(done.slots[i], context.root) {
        assert !SlotHas(s.slots[i], context.root);
      }
      forall a | 0 <= a < |done.calls| ensures !CallHas(done.calls[a], context.root) {
        if a != call { assert !CallHas(s.calls[a], context.root); }
      }
      PushKeepsInv(done, context.(stage := NextStage(context)));
    }
  }

  lemma RegisterOtherKeepsInv(s: State)
    requires Inv(s)
    ensures Inv(Step(s, RegisterOther))
  {
    var t := Step(s, RegisterOther);
    forall i | 0 <= i < |t.slots| && t.slots[i].Holding? ensures Latest(t, t.slots[i].context) {
      assert Latest(s, s.slots[i].context);
    }
    forall a | 0 <= a < |t.calls| && t.calls[a].Some? ensures Latest(t, t.calls[a].value) {
      assert Latest(s, s.calls[a].value);
    }
    assert OnePlace(t);
  }

  lemma StepKeepsInv(s: State, e: Event)
    requires Inv(s)
    ensures Inv(Step(s, e))
  {
    FreshRoot(s);
    match e
    case Begin(flow, stage) => if Step(s, e) != s { PushKeepsInv(s, Context(flow, stage, |s.slots|)); }
    case RegisterOther => RegisterOtherKeepsInv(s);
    case CloseOther(h) => if Step(s, e) != s { CloseKeepsInv(s, h); }
    case Take(h, _, _) => if Step(s, e) != s { TakeKeepsInv(s, h); }
    case Succeed(call) => if Active(s, call) { SucceedKeepsInv(s, call); }
    case GiveUp(call) => if Active(s, call) { EndCallKeepsInv(s, call); }
    case ListInitial(call) => if Step(s, e) != s { PushKeepsInv(s, Context(UserClaim, INITIAL, |s.slots|)); }
    case Abort(h) => if Step(s, e) != s { CloseKeepsInv(s, h); }
  }

  lemma {:induction false} RunKeepsInv(s: State, events: seq<Event>)
    requires Inv(s)
    ensures Inv(Run(s, events))
    decreases |events|
  {
    if events != [] {
      StepKeepsInv(s, events[0]);
      RunKeepsInv(Step(s, events[0]), events[1..]);
    }
  }

  // ---------- results ----------

  /** Under every interleaving of calls, cancellations and aborts, the handles that descend from one
      initial handle have at most one open among them, and none while a call works on the context. */
  lemma AtMostOneOpenDescendant(events: seq<Event>, h: Handle, k: Handle, call: nat)
    ensures var s := Run(InitialState, events);
            h < |s.slots| && s.slots[h].Holding? ==>
              && (k < |s.slots| && k != h ==> !SlotHas(s.slots[k], s.slots[h].context.root))
              && (call < |s.calls| ==> !CallHas(s.calls[call], s.slots[h].context.root))
  {
    RunKeepsInv(InitialState, events);
    var s := Run(InitialState, events);
    if h < |s.slots| && s.slots[h].Holding? && k < h {
      assert s.slots[k].Holding? ==> !SlotHas(s.slots[h], s.slots[k].context.root);
    }
  }

  function HandlesOf(issued: seq<Option<Context>>, root: Handle): nat
  {
    if issued == [] then 0
    else
      var last := issued[|issued| - 1];
      HandlesOf(issued[..|issued| - 1], root) + (if last.Some? && last.value.root == root then 1 else 0)
  }

  /** Each success raises the stage, so no chain is ever given more handles than there are stages. */
  lemma ChainsAreBounded(events: seq<Event>, root: Handle)
    ensures HandlesOf(Run(InitialState, events).issued, root) <= LAST_STAGE + 1
  {
    RunKeepsInv(InitialState, events);
    var issued := Run(InitialState, events).issued;
    RisingStagesBoundHandles(issued, root, LAST_STAGE);
  }

  lemma {:induction false} RisingStagesBoundHandles(issued: seq<Option<Context>>, root: Handle, top: nat)
    requires forall h | 0 <= h < |issued| && issued[h].Some? && issued[h].value.root == root ::
               issued[h].value.stage <= top
    requires forall h, k | 0 <= h < k < |issued| && issued[h].Some? && issued[k].Some?
                           && issued[h].value.root == issued[k].value.root ::
                                issued[h].value.stage < issued[k].value.stage
    ensures HandlesOf(issued, root) <= top + 1
  {
    if issued != [] {
      var n := |issued| - 1;
      var before, last := issued[..n], issued[n];
      if last.Some? && last.value.root == root {
        if last.value.stage == 0 {
          NoHandles(before, root);
        } else {
          RisingStagesBoundHandles(before, root, last.value.stage - 1);
        }
      } else {
        RisingStagesBoundHandles(before, root, top);
      }
    }
  }

  lemma {:induction false} NoHandles(issued: seq<Option<Context>>, root: Handle)
    requires forall h | 0 <= h < |issued| && issued[h].Some? :: issued[h].value.root != root
    ensures HandlesOf(issued, root) == 0
  {
    if issued != [] { NoHandles(issued[..|issued| - 1], root); }
  }

  /** What the calls do to a chain: success opens one new handle, of the same flow and chain and one stage
      further, unless the last stage was reached; anything else opens none. */
  lemma SuccessIsNextStage(s: State, call: nat)
    requires Active(s, call)
    ensures var context, after := s.calls[call].value, Step(s, Succeed(call));
            && !Active(after, call)
            && (context.stage < LAST_STAGE ==>
                  && |after.slots| == |s.slots| + 1 && after.slots[..|s.slots|] == s.slots
                  && after.slots[|s.slots|].Holding?
                  && after.slots[|s.slots|].context.flow == context.flow
                  && after.slots[|s.slots|].context.root == context.root
                  && after.slots[|s.slots|].context.stage
                     == if context.stage == LIST_ADMINISTRATORS then IN_PROGRESS_1 else context.stage + 1)
            && (context.stage >= LAST_STAGE ==> after.slots == s.slots)
    ensures !Active(Step(s, GiveUp(call)), call) && Step(s, GiveUp(call)).slots == s.slots
  {
  }

  /** A call takes the context of its handle and closes it, if it is of the flow and stage called for;
      aborting closes the handle of any stage but the list of administrators. Other handles stay. */
  lemma CallsCloseTheirHandle(s: State, h: Handle, flow: Flow, stage: nat, i: Handle)
    requires i < |s.slots|
    ensures var taken, after := Context(flow, stage, 0), Step(s, Take(h, flow, stage));
            var fits := h < |s.slots| && s.slots[h].Holding? && s.slots[h].context.(root := 0) == taken;
            && |after.slots| == |s.slots|
            && after.slots[i] == (if i == h && fits then Closed else s.slots[i])
            && after.calls == if fits then s.calls + [Some(s.slots[h].context)] else s.calls
    ensures var after := Step(s, Abort(h));
            && |after.slots| == |s.slots| && after.calls == s.calls
            && after.slots[i] == if i == h && s.slots[i].Holding? && s.slots[i].context.stage != LIST_ADMINISTRATORS
                                 then Closed else s.slots[i]
  {
  }
}
