/** The parallel download of one batch of block data (server/parsec/realm_export.py, from
    `_get_next_batch_of_blocks` to the flag update).

    Asyncio tasks share the batch deque and the flush buffer; the SQLite thread executes queued
    flush jobs in order. Every section that runs without an await or under the lock is one event,
    and events interleave arbitrarily. An event that is not possible in a state leaves it alone, so
    any sequence of events is a run. */
module BlockFetch {
  import opened Basics

  type BlockRow = (nat, Bytes)

  const BLOCK_DATA_EXPORT_PARALLELISM: nat := 10
  const BLOCK_DATA_EXPORT_RAM_LIMIT: nat := 0x4000_0000

  datatype Worker =
    | Idle                     // about to pop the deque
    | Fetching(id: nat)        // waiting for the blockstore
    | Checking                 // data appended, buffer size not compared with the limit yet
    | FlushQueued              // waiting for a flush job that has not started
    | Flushing                 // waiting for a flush job that has stolen the buffer
    | FailQueued(id: nat)      // blockstore unavailable: waiting for a last flush
    | FailFlushing(id: nat)
    | Finished
    | Cancelled

  datatype JobOwner = OfWorker(worker: nat) | OfGroup | Orphan

  datatype SqliteThread = Ready | Inserting(owner: JobOwner, rows: seq<BlockRow>)

  datatype Phase = Running | Closing | Completed | Failed

  datatype State = State(
    queue: seq<nat>,
    workers: seq<Worker>,
    buffer: seq<BlockRow>,
    bufferedBytes: nat,
    jobs: seq<JobOwner>,
    sqlite: SqliteThread,
    table: seq<BlockRow>,
    dropped: seq<nat>,
    phase: Phase)

  datatype Event =
    | Pop(worker: nat)
    | ReadOk(worker: nat)
    | ReadMissing(worker: nat)
    | ReadUnavailable(worker: nat)
    | CheckLimit(worker: nat)
    | Steal
    | Commit
    | CloseGroup
    | Retry

  function Start(batch: seq<nat>, table: seq<BlockRow>): State
  {
    State(batch, FreshWorkers(), [], 0, [], Ready, table, [], Running)
  }

  function FreshWorkers(): seq<Worker>
  {
    seq(BLOCK_DATA_EXPORT_PARALLELISM, _ => Idle)
  }

  // ---------- steps ----------

  function Step(s: State, e: Event, content: map<nat, Bytes>): State
  {
    match e
    case Pop(w) => if CanRun(s, w) && s.workers[w].Idle? then PopLeft(s, w) else s
    case ReadOk(w) =>
      if CanRun(s, w) && s.workers[w].Fetching? && s.workers[w].id in content
      then AddBlockData(s, w, content[s.workers[w].id]) else s
    case ReadMissing(w) =>
      if CanRun(s, w) && s.workers[w].Fetching? && s.workers[w].id !in content then FailGroup(s) else s
    case ReadUnavailable(w) =>
      if CanRun(s, w) && s.workers[w].Fetching?
      then s.(workers := s.workers[w := FailQueued(s.workers[w].id)], jobs := s.jobs + [OfWorker(w)]) else s
    case CheckLimit(w) => if CanRun(s, w) && s.workers[w].Checking? then MaybeFlush(s, w) else s
    case Steal => if s.sqlite.Ready? && s.jobs != [] then StealBuffer(s) else s
    case Commit => if s.sqlite.Inserting? then CommitRows(s) else s
    case CloseGroup =>
      if s.phase == Running && AllFinished(s.workers)
      then s.(phase := Closing, jobs := s.jobs + [OfGroup]) else s
    case Retry => if s.phase == Failed then s.(phase := Running, workers := FreshWorkers()) else s
  }

  predicate CanRun(s: State, w: nat)
  {
    s.phase == Running && w < |s.workers|
  }

  predicate AllFinished(workers: seq<Worker>)
  {
    forall w | 0 <= w < |workers| :: workers[w].Finished?
  }

  function PopLeft(s: State, w: nat): State
    requires w < |s.workers|
  {
    if s.queue == [] then s.(workers := s.workers[w := Finished])
    else s.(workers := s.workers[w := Fetching(s.queue[0])], queue := s.queue[1..])
  }

  function AddBlockData(s: State, w: nat, data: Bytes): State
    requires w < |s.workers| && s.workers[w].Fetching?
  {
    s.(workers := s.workers[w := Checking],
       buffer := s.buffer + [(s.workers[w].id, data)],
       bufferedBytes := s.bufferedBytes + |data|)
  }

  function MaybeFlush(s: State, w: nat): State
    requires w < |s.workers|
  {
    if s.bufferedBytes >= BLOCK_DATA_EXPORT_RAM_LIMIT then
      s.(workers := s.workers[w := FlushQueued], jobs := s.jobs + [OfWorker(w)])
    else
      s.(workers := s.workers[w := Idle])
  }

  function StealBuffer(s: State): State
    requires s.jobs != []
  {
    var owner := s.jobs[0];
    s.(jobs := s.jobs[1..], sqlite := Inserting(owner, s.buffer), buffer := [], bufferedBytes := 0,
       workers := if owner.OfWorker? then JobStarts(s.workers, owner.worker) else s.workers)
  }

  function JobStarts(workers: seq<Worker>, w: nat): seq<Worker>
  {
    if w < |workers| && workers[w].FlushQueued? then workers[w := Flushing]
    else if w < |workers| && workers[w].FailQueued? then workers[w := FailFlushing(workers[w].id)]
    else workers
  }

  function CommitRows(s: State): State
    requires s.sqlite.Inserting?
  {
    var committed := s.(table := s.table + s.sqlite.rows, sqlite := Ready);
    match s.sqlite.owner
    case Orphan => committed
    case OfGroup => if s.phase == Closing then committed.(phase := Completed) else committed
    case OfWorker(w) =>
      if w < |s.workers| && s.workers[w].Flushing? then committed.(workers := s.workers[w := Idle])
      else if w < |s.workers| && s.workers[w].FailFlushing? then FailGroup(committed)
      else committed
  }

  /** An error escapes one task: the group cancels the others and whatever they were fetching is
      given up. Flush jobs already handed to the SQLite thread stay there. */
  function FailGroup(s: State): State
  {
    s.(phase := Failed,
       workers := seq(|s.workers|, _ => Cancelled),
       dropped := s.dropped + HeldIds(s.workers),
       jobs := seq(|s.jobs|, _ => Orphan),
       sqlite := if s.sqlite.Ready? then Ready else Inserting(Orphan, s.sqlite.rows))
  }

  function Run(s: State, events: seq<Event>, content: map<nat, Bytes>): State
    decreases |events|
  {
    if events == [] then s else Run(Step(s, events[0], content), events[1..], content)
  }

  // ---------- where an id can be ----------

  function HeldIds(workers: seq<Worker>): seq<nat>
  {
    if workers == [] then []
    else (if Holds(workers[0]) then [workers[0].id] else []) + HeldIds(workers[1..])
  }

  predicate Holds(w: Worker)
  {
    w.Fetching? || w.FailQueued? || w.FailFlushing?
  }

  function InsertingRows(s: State): seq<BlockRow>
  {
    if s.sqlite.Inserting? then s.sqlite.rows else []
  }

  function Count(ids: seq<nat>, id: nat): nat
  {
    if ids == [] then 0 else (if ids[0] == id then 1 else 0) + Count(ids[1..], id)
  }

  function CountRows(rows: seq<BlockRow>, id: nat): nat
  {
    if rows == [] then 0 else (if rows[0].0 == id then 1 else 0) + CountRows(rows[1..], id)
  }

  /** How often an id occurs over the deque, the tasks, the buffer, the rows being inserted, the
      table, and the ids given up on failure. */
  function Places(s: State, id: nat): nat
  {
    Count(s.queue, id) + Count(HeldIds(s.workers), id) + CountRows(s.buffer, id)
    + CountRows(InsertingRows(s), id) + CountRows(s.table, id) + Count(s.dropped, id)
  }

  /** The ids of the batch and of the rows stored before it are spread over those places without
      loss and without duplication. */
  ghost predicate Partitioned(s: State, batch: seq<nat>, before: seq<BlockRow>)
  {
    forall id :: Places(s, id) == Count(batch, id) + CountRows(before, id)
  }

  // ---------- counting ----------

  lemma {:induction false} CountConcat(a: seq<nat>, b: seq<nat>, id: nat)
    ensures Count(a + b, id) == Count(a, id) + Count(b, id)
  {
    if a == [] {
      assert a + b == b;
    } else {
      assert (a + b)[1..] == a[1..] + b;
      CountConcat(a[1..], b, id);
    }
  }

  lemma {:induction false} CountRowsConcat(a: seq<BlockRow>, b: seq<BlockRow>, id: nat)
    ensures CountRows(a + b, id) == CountRows(a, id) + CountRows(b, id)
  {
    if a == [] {
      assert a + b == b;
    } else {
      assert (a + b)[1..] == a[1..] + b;
      CountRowsConcat(a[1..], b, id);
    }
  }

  function CountHeld(w: Worker, id: nat): nat
  {
    if Holds(w) && w.id == id then 1 else 0
  }

  lemma {:induction false} HeldUpdate(workers: seq<Worker>, w: nat, x: Worker, id: nat)
    requires w < |workers|
    ensures Count(HeldIds(workers[w := x]), id) + CountHeld(workers[w], id)
         == Count(HeldIds(workers), id) + CountHeld(x, id)
  {
    var updated := workers[w := x];
    HeldCons(workers, id);
    HeldCons(updated, id);
    if w == 0 {
      assert updated[1..] == workers[1..];
    } else {
      assert updated[1..] == workers[1..][w - 1 := x];
      HeldUpdate(workers[1..], w - 1, x, id);
    }
  }

  lemma HeldCons(workers: seq<Worker>, id: nat)
    requires workers != []
    ensures Count(HeldIds(workers), id) == CountHeld(workers[0], id) + Count(HeldIds(workers[1..]), id)
  {
    CountConcat(if Holds(workers[0]) then [workers[0].id] else [], HeldIds(workers[1..]), id);
  }

  lemma {:induction false} NothingHeld(workers: seq<Worker>)
    requires forall w | 0 <= w < |workers| :: !Holds(workers[w])
    ensures HeldIds(workers) == []
  {
    if workers != [] {
      NothingHeld(workers[1..]);
    }
  }

  // ---------- the partition is kept by every step ----------

  lemma FailKeepsPlaces(s: State, id: nat)
    ensures Places(FailGroup(s), id) == Places(s, id)
  {
    NothingHeld(FailGroup(s).workers);
    CountConcat(s.dropped, HeldIds(s.workers), id);
    assert InsertingRows(FailGroup(s)) == InsertingRows(s);
  }

  lemma StealKeepsPlaces(s: State, id: nat)
    requires s.sqlite.Ready? && s.jobs != []
    ensures Places(StealBuffer(s), id) == Places(s, id)
  {
    var t := StealBuffer(s);
    if s.jobs[0].OfWorker? && s.jobs[0].worker < |s.workers| {
      var w := s.jobs[0].worker;
      assert t.workers == s.workers[w := t.workers[w]];
      HeldUpdate(s.workers, w, t.workers[w], id);
    }
  }

  lemma TableTakesRows(s: State, id: nat)
    requires s.sqlite.Inserting?
    ensures Places(s.(table := s.table + s.sqlite.rows, sqlite := Ready), id) == Places(s, id)
  {
    hide Count, HeldIds;
    CountRowsConcat(s.table, s.sqlite.rows, id);
  }

  lemma WorkerKeepsPlaces(s: State, w: nat, x: Worker, id: nat)
    requires w < |s.workers| && CountHeld(x, id) == CountHeld(s.workers[w], id)
    ensures Places(s.(workers := s.workers[w := x]), id) == Places(s, id)
  {
    hide Count, HeldIds, CountRows;
    HeldUpdate(s.workers, w, x, id);
  }

  lemma CommitKeepsPlaces(s: State, id: nat)
    requires s.sqlite.Inserting?
    ensures Places(CommitRows(s), id) == Places(s, id)
  {
    hide Places;
    var committed := s.(table := s.table + s.sqlite.rows, sqlite := Ready);
    TableTakesRows(s, id);
    match s.sqlite.owner
    case Orphan =>
    case OfGroup => PlacesIgnorePhase(committed, Completed, id);
    case OfWorker(w) =>
      if w < |s.workers| && s.workers[w].Flushing? {
        WorkerKeepsPlaces(committed, w, Idle, id);
      } else if w < |s.workers| && s.workers[w].FailFlushing? {
        FailKeepsPlaces(committed, id);
      }
  }

  lemma PlacesIgnorePhase(s: State, phase: Phase, id: nat)
    ensures Places(s.(phase := phase), id) == Places(s, id)
  {
  }

  lemma PopKeepsPlaces(s: State, w: nat, id: nat)
    requires w < |s.workers| && s.workers[w].Idle?
    ensures Places(PopLeft(s, w), id) == Places(s, id)
  {
    HeldUpdate(s.workers, w, PopLeft(s, w).workers[w], id);
  }

  lemma AddKeepsPlaces(s: State, w: nat, data: Bytes, id: nat)
    requires w < |s.workers| && s.workers[w].Fetching?
    ensures Places(AddBlockData(s, w, data), id) == Places(s, id)
  {
    hide Count, HeldIds;
    HeldUpdate(s.workers, w, Checking, id);
    CountRowsConcat(s.buffer, [(s.workers[w].id, data)], id);
  }

  lemma FlagsKeepPlaces(s: State, w: nat, x: Worker, jobs: seq<JobOwner>, id: nat)
    requires w < |s.workers| && CountHeld(x, id) == CountHeld(s.workers[w], id)
    ensures Places(s.(workers := s.workers[w := x], jobs := jobs), id) == Places(s, id)
  {
    hide Count, HeldIds, CountRows;
    HeldUpdate(s.workers, w, x, id);
  }

  lemma RestartKeepsPlaces(s: State, id: nat)
    requires AllCancelled(s.workers)
    ensures Places(s.(phase := Running, workers := FreshWorkers()), id) == Places(s, id)
  {
    hide Count, CountRows;
    NothingHeld(s.workers);
    NothingHeld(FreshWorkers());
  }

  lemma StepKeepsPlaces(s: State, e: Event, content: map<nat, Bytes>, id: nat)
    requires s.phase == Failed ==> AllCancelled(s.workers)
    ensures Places(Step(s, e, content), id) == Places(s, id)
  {
    var t := Step(s, e, content);
    hide Places, PopLeft, AddBlockData, FailGroup, StealBuffer, CommitRows, FreshWorkers;
    if t != s {
      match e
      case Pop(w) => PopKeepsPlaces(s, w, id);
      case ReadOk(w) => AddKeepsPlaces(s, w, content[s.workers[w].id], id);
      case ReadMissing(w) => FailKeepsPlaces(s, id);
      case ReadUnavailable(w) => FlagsKeepPlaces(s, w, FailQueued(s.workers[w].id), s.jobs + [OfWorker(w)], id);
      case CheckLimit(w) =>
        FlagsKeepPlaces(s, w, FlushQueued, s.jobs + [OfWorker(w)], id);
        FlagsKeepPlaces(s, w, Idle, s.jobs, id);
      case Steal => StealKeepsPlaces(s, id);
      case Commit => CommitKeepsPlaces(s, id);
      case CloseGroup => ClosingKeepsPlaces(s, id);
      case Retry => RestartKeepsPlaces(s, id);
    }
  }

  lemma ClosingKeepsPlaces(s: State, id: nat)
    ensures Places(s.(phase := Closing, jobs := s.jobs + [OfGroup]), id) == Places(s, id)
  {
  }

  // ---------- shape of the reachable states ----------

  predicate AllCancelled(workers: seq<Worker>)
  {
    forall w | 0 <= w < |workers| :: workers[w].Cancelled?
  }

  predicate GroupJobRuns(s: State)
  {
    s.sqlite.Inserting? && s.sqlite.owner.OfGroup?
  }

  predicate GroupJobIsLast(s: State)
  {
    if GroupJobRuns(s) then s.jobs == [] && s.buffer == []
    else s.jobs != [] && s.jobs[|s.jobs| - 1].OfGroup? && OfGroup !in s.jobs[..|s.jobs| - 1]
  }

  /** A task only finishes on an empty deque, the closing flush is the last job, and a completed
      group has nothing left in memory. */
  ghost predicate Shape(s: State)
  {
    && |s.workers| == BLOCK_DATA_EXPORT_PARALLELISM
    && (forall w | 0 <= w < |s.workers| :: s.workers[w].Finished? ==> s.queue == [])
    && match s.phase
       case Running => OfGroup !in s.jobs && !GroupJobRuns(s)
       case Failed => AllCancelled(s.workers) && OfGroup !in s.jobs && !GroupJobRuns(s)
       case Closing => AllFinished(s.workers) && GroupJobIsLast(s)
       case Completed => AllFinished(s.workers) && s.jobs == [] && s.buffer == [] && s.sqlite.Ready?
  }

  ghost predicate Genuine(rows: seq<BlockRow>, content: map<nat, Bytes>)
  {
    forall i | 0 <= i < |rows| :: rows[i].0 in content && rows[i].1 == content[rows[i].0]
  }

  /** Rows only ever carry the stored content of their block, and the table only grows. */
  ghost predicate Faithful(s: State, before: seq<BlockRow>, content: map<nat, Bytes>)
  {
    && Genuine(s.buffer, content)
    && Genuine(InsertingRows(s), content)
    && Genuine(s.table, content)
    && before <= s.table
  }

  ghost predicate Safe(s: State, batch: seq<nat>, before: seq<BlockRow>, content: map<nat, Bytes>)
  {
    Shape(s) && Partitioned(s, batch, before) && Faithful(s, before, content)
  }

  lemma StealKeepsShape(s: State)
    requires Shape(s) && s.sqlite.Ready? && s.jobs != []
    ensures Shape(StealBuffer(s))
  {
  }

  lemma CommitKeepsShape(s: State)
    requires Shape(s) && s.sqlite.Inserting?
    ensures Shape(CommitRows(s))
  {
  }

  lemma StepKeepsShape(s: State, e: Event, content: map<nat, Bytes>)
    requires Shape(s)
    ensures Shape(Step(s, e, content))
  {
    hide StealBuffer, CommitRows;
    if e.Steal? && s.sqlite.Ready? && s.jobs != [] { StealKeepsShape(s); }
    if e.Commit? && s.sqlite.Inserting? { CommitKeepsShape(s); }
  }

  lemma StepKeepsFaithful(s: State, e: Event, before: seq<BlockRow>, content: map<nat, Bytes>)
    requires Faithful(s, before, content)
    ensures Faithful(Step(s, e, content), before, content)
  {
  }

  lemma StartHoldsNothing(batch: seq<nat>, before: seq<BlockRow>, id: nat)
    ensures Places(Start(batch, before), id) == Count(batch, id) + CountRows(before, id)
  {
    NothingHeld(Start(batch, before).workers);
  }

  lemma StartIsSafe(batch: seq<nat>, before: seq<BlockRow>, content: map<nat, Bytes>)
    requires Genuine(before, content)
    ensures Safe(Start(batch, before), batch, before, content)
  {
    hide Places;
    forall id ensures Places(Start(batch, before), id) == Count(batch, id) + CountRows(before, id) {
      StartHoldsNothing(batch, before, id);
    }
  }

  lemma StepIsSafe(s: State, e: Event, batch: seq<nat>, before: seq<BlockRow>, content: map<nat, Bytes>)
    requires Safe(s, batch, before, content)
    ensures Safe(Step(s, e, content), batch, before, content)
  {
    StepKeepsShape(s, e, content);
    StepKeepsFaithful(s, e, before, content);
    forall id ensures Places(Step(s, e, content), id) == Count(batch, id) + CountRows(before, id) {
      StepKeepsPlaces(s, e, content, id);
    }
  }

  /** Whatever the interleaving, and whatever fails or is retried, no id is lost or duplicated. */
  lemma {:induction false} RunIsSafe(s: State, events: seq<Event>, batch: seq<nat>, before: seq<BlockRow>,
                                     content: map<nat, Bytes>)
    requires Safe(s, batch, before, content)
    ensures Safe(Run(s, events, content), batch, before, content)
    decreases |events|
  {
    if events != [] {
      StepIsSafe(s, events[0], batch, before, content);
      RunIsSafe(Step(s, events[0], content), events[1..], batch, before, content);
    }
  }

  // ---------- no row is inserted twice, no block is forgotten ----------

  ghost predicate DistinctKeys(rows: seq<BlockRow>)
  {
    forall i, j | 0 <= i < j < |rows| :: rows[i].0 != rows[j].0
  }

  ghost predicate HasRow(rows: seq<BlockRow>, id: nat)
  {
    exists i | 0 <= i < |rows| :: rows[i].0 == id
  }

  lemma {:induction false} CountRowsPositive(rows: seq<BlockRow>, id: nat)
    ensures HasRow(rows, id) <==> 0 < CountRows(rows, id)
  {
    if rows != [] {
      CountRowsPositive(rows[1..], id);
      if rows[0].0 != id && HasRow(rows, id) {
        var i :| 0 <= i < |rows| && rows[i].0 == id;
        assert rows[1..][i - 1].0 == id;
      }
      if HasRow(rows[1..], id) {
        var i :| 0 <= i < |rows[1..]| && rows[1..][i].0 == id;
        assert rows[i + 1].0 == id;
      }
    }
  }

  lemma {:induction false} CountPositive(ids: seq<nat>, id: nat)
    ensures id in ids <==> 0 < Count(ids, id)
  {
    if ids != [] {
      CountPositive(ids[1..], id);
      assert ids == [ids[0]] + ids[1..];
    }
  }

  lemma {:induction false} DistinctFromCounts(rows: seq<BlockRow>)
    requires forall id :: CountRows(rows, id) <= 1
    ensures DistinctKeys(rows)
  {
    if rows != [] {
      var rest := rows[1..];
      forall id ensures CountRows(rest, id) <= 1 {
        assert CountRows(rest, id) <= CountRows(rows, id);
      }
      DistinctFromCounts(rest);
      forall j | 0 < j < |rows| ensures rows[0].0 != rows[j].0 {
        assert CountRows(rows, rows[0].0) == 1 + CountRows(rest, rows[0].0);
        CountRowsPositive(rest, rows[0].0);
        assert rest[j - 1] == rows[j];
      }
      forall i, j | 0 < i < j < |rows| ensures rows[i].0 != rows[j].0 {
        assert rest[i - 1] == rows[i] && rest[j - 1] == rows[j];
      }
    }
  }

  /** A batch of ids without data: pairwise distinct, and distinct from the stored rows. */
  ghost predicate FreshBatch(batch: seq<nat>, before: seq<BlockRow>)
  {
    forall id :: Count(batch, id) + CountRows(before, id) <= 1
  }

  /** In every reachable state the table's primary key holds, and inserting the rows the SQLite
      thread is about to insert cannot violate it. */
  lemma NoRowInsertedTwice(batch: seq<nat>, before: seq<BlockRow>, content: map<nat, Bytes>, events: seq<Event>)
    requires FreshBatch(batch, before) && Genuine(before, content)
    ensures var s := Run(Start(batch, before), events, content);
            DistinctKeys(s.table) && DistinctKeys(s.table + InsertingRows(s))
  {
    StartIsSafe(batch, before, content);
    RunIsSafe(Start(batch, before), events, batch, before, content);
    var s := Run(Start(batch, before), events, content);
    forall id ensures CountRows(s.table, id) <= 1 && CountRows(s.table + InsertingRows(s), id) <= 1 {
      assert Places(s, id) <= 1;
      CountRowsConcat(s.table, InsertingRows(s), id);
    }
    DistinctFromCounts(s.table);
    DistinctFromCounts(s.table + InsertingRows(s));
  }

  /** When the group completes, each id of the batch has its row unless a failure gave it up, and
      nothing else was added: what is stored is what was stored before plus the batch. */
  lemma CompletedStoresBatch(s: State, batch: seq<nat>, before: seq<BlockRow>, content: map<nat, Bytes>, id: nat)
    requires Safe(s, batch, before, content) && s.phase == Completed
    ensures HasRow(s.table, id) || id in s.dropped <==> id in batch || HasRow(before, id)
  {
    assert s.workers[0].Finished?;
    NothingHeld(s.workers);
    assert Places(s, id) == CountRows(s.table, id) + Count(s.dropped, id);
    CountRowsPositive(s.table, id);
    CountRowsPositive(before, id);
    CountPositive(s.dropped, id);
    CountPositive(batch, id);
  }

  predicate IsFailure(e: Event)
  {
    e.ReadMissing? || e.ReadUnavailable? || e.Retry?
  }

  ghost predicate NothingFailed(s: State)
  {
    && s.dropped == []
    && s.phase != Failed
    && forall w | 0 <= w < |s.workers| :: !s.workers[w].FailQueued? && !s.workers[w].FailFlushing?
  }

  lemma {:induction false} NoFailureDropsNothing(s: State, events: seq<Event>, content: map<nat, Bytes>)
    requires NothingFailed(s)
    requires forall i | 0 <= i < |events| :: !IsFailure(events[i])
    ensures NothingFailed(Run(s, events, content))
    decreases |events|
  {
    if events != [] {
      NoFailureDropsNothing(Step(s, events[0], content), events[1..], content);
    }
  }

  ghost predicate FailureFree(events: seq<Event>)
  {
    forall i | 0 <= i < |events| :: !IsFailure(events[i])
  }

  /** A group that completes without a failure has stored its whole batch. */
  lemma CleanGroupStoresBatch(batch: seq<nat>, before: seq<BlockRow>, content: map<nat, Bytes>, events: seq<Event>)
    requires Genuine(before, content) && FailureFree(events)
    requires Run(Start(batch, before), events, content).phase == Completed
    ensures forall id | id in batch || HasRow(before, id) ::
              HasRow(Run(Start(batch, before), events, content).table, id)
  {
    hide Run, Safe, Genuine, HasRow;
    var s := Run(Start(batch, before), events, content);
    StartIsSafe(batch, before, content);
    RunIsSafe(Start(batch, before), events, batch, before, content);
    NoFailureDropsNothing(Start(batch, before), events, content);
    forall id | id in batch || HasRow(before, id) ensures HasRow(s.table, id) {
      CompletedStoresBatch(s, batch, before, content, id);
    }
  }

  // ---------- memory held by the buffer ----------

  function TotalBytes(rows: seq<BlockRow>): nat
  {
    if rows == [] then 0 else |rows[0].1| + TotalBytes(rows[1..])
  }

  lemma {:induction false} TotalBytesConcat(a: seq<BlockRow>, b: seq<BlockRow>)
    ensures TotalBytes(a + b) == TotalBytes(a) + TotalBytes(b)
  {
    if a == [] {
      assert a + b == b;
    } else {
      assert (a + b)[1..] == a[1..] + b;
      TotalBytesConcat(a[1..], b);
    }
  }

  /** Room for one block per task that may have pushed the buffer over the limit; such a task
      cannot add to the buffer again before a flush. */
  function Slack(workers: seq<Worker>, largest: nat): nat
  {
    if workers == [] then 0 else SlackOf(workers[0], largest) + Slack(workers[1..], largest)
  }

  function SlackOf(w: Worker, largest: nat): nat
  {
    if w.Checking? || w.FlushQueued? then largest else 0
  }

  lemma {:induction false} SlackUpdate(workers: seq<Worker>, w: nat, x: Worker, largest: nat)
    requires w < |workers|
    ensures Slack(workers[w := x], largest) + SlackOf(workers[w], largest)
            == Slack(workers, largest) + SlackOf(x, largest)
  {
    if w == 0 {
      assert workers[w := x][1..] == workers[1..];
    } else {
      assert workers[w := x][1..] == workers[1..][w - 1 := x];
      SlackUpdate(workers[1..], w - 1, x, largest);
    }
  }

  lemma {:induction false} SlackAtMost(workers: seq<Worker>, largest: nat)
    ensures Slack(workers, largest) <= |workers| * largest
  {
    if workers != [] {
      SlackAtMost(workers[1..], largest);
      assert |workers| * largest == |workers[1..]| * largest + largest;
    }
  }

  ghost predicate BlocksAtMost(content: map<nat, Bytes>, largest: nat)
  {
    forall id | id in content :: |content[id]| <= largest
  }

  ghost predicate MemoryBounded(s: State, largest: nat)
  {
    && s.bufferedBytes == TotalBytes(s.buffer)
    && |s.workers| == BLOCK_DATA_EXPORT_PARALLELISM
    && if s.phase == Failed
       then s.bufferedBytes < BLOCK_DATA_EXPORT_RAM_LIMIT + BLOCK_DATA_EXPORT_PARALLELISM * largest
       else s.bufferedBytes < BLOCK_DATA_EXPORT_RAM_LIMIT + Slack(s.workers, largest)
  }

  lemma MemoryBoundedMeansLimit(s: State, largest: nat)
    requires MemoryBounded(s, largest)
    ensures TotalBytes(s.buffer) == s.bufferedBytes
    ensures s.bufferedBytes < BLOCK_DATA_EXPORT_RAM_LIMIT + BLOCK_DATA_EXPORT_PARALLELISM * largest
  {
    SlackAtMost(s.workers, largest);
  }

  lemma AddKeepsMemoryBounded(s: State, w: nat, data: Bytes, largest: nat)
    requires MemoryBounded(s, largest) && |data| <= largest
    requires CanRun(s, w) && s.workers[w].Fetching?
    ensures MemoryBounded(AddBlockData(s, w, data), largest)
  {
    TotalBytesConcat(s.buffer, [(s.workers[w].id, data)]);
    SlackUpdate(s.workers, w, Checking, largest);
  }

  lemma CommitKeepsMemoryBounded(s: State, largest: nat)
    requires MemoryBounded(s, largest) && s.sqlite.Inserting?
    ensures MemoryBounded(CommitRows(s), largest)
  {
    MemoryBoundedMeansLimit(s, largest);
    if s.sqlite.owner.OfWorker? && s.sqlite.owner.worker < |s.workers| {
      SlackUpdate(s.workers, s.sqlite.owner.worker, Idle, largest);
    }
  }

  lemma StepKeepsMemoryBounded(s: State, e: Event, content: map<nat, Bytes>, largest: nat)
    requires MemoryBounded(s, largest) && BlocksAtMost(content, largest) && !e.Retry?
    ensures MemoryBounded(Step(s, e, content), largest)
  {
    var t := Step(s, e, content);
    match e
    case Pop(w) => if t != s { SlackUpdate(s.workers, w, t.workers[w], largest); }
    case ReadOk(w) => if t != s { AddKeepsMemoryBounded(s, w, content[s.workers[w].id], largest); }
    case ReadMissing(w) => MemoryBoundedMeansLimit(s, largest);
    case ReadUnavailable(w) => if t != s { SlackUpdate(s.workers, w, t.workers[w], largest); }
    case CheckLimit(w) => if t != s { SlackUpdate(s.workers, w, t.workers[w], largest); }
    case Steal =>
    case Commit => if t != s { CommitKeepsMemoryBounded(s, largest); }
    case CloseGroup =>
  }

  lemma {:induction false} RunKeepsMemoryBounded(s: State, events: seq<Event>, content: map<nat, Bytes>, largest: nat)
    requires MemoryBounded(s, largest) && BlocksAtMost(content, largest)
    requires forall i | 0 <= i < |events| :: !events[i].Retry?
    ensures MemoryBounded(Run(s, events, content), largest)
    decreases |events|
  {
    if events != [] {
      StepKeepsMemoryBounded(s, events[0], content, largest);
      RunKeepsMemoryBounded(Step(s, events[0], content), events[1..], content, largest);
    }
  }

  /** Over one task group, under every interleaving of tasks and flushes, the size counter is the
      size of the buffer and stays below the limit plus one largest block per task. */
  lemma BufferStaysBounded(batch: seq<nat>, table: seq<BlockRow>, events: seq<Event>, content: map<nat, Bytes>,
                           largest: nat)
    requires BlocksAtMost(content, largest)
    requires forall i | 0 <= i < |events| :: !events[i].Retry?
    ensures var s := Run(Start(batch, table), events, content);
            TotalBytes(s.buffer) == s.bufferedBytes
            < BLOCK_DATA_EXPORT_RAM_LIMIT + BLOCK_DATA_EXPORT_PARALLELISM * largest
  {
    RunKeepsMemoryBounded(Start(batch, table), events, content, largest);
    MemoryBoundedMeansLimit(Run(Start(batch, table), events, content), largest);
  }

  // ---------- progress ----------

  function WorkerWork(w: Worker): nat
  {
    match w
    case Fetching(_) => 5
    case Checking => 4
    case Finished => 0
    case Cancelled => 0
    case _ => 1
  }

  function Work(workers: seq<Worker>): nat
  {
    if workers == [] then 0 else WorkerWork(workers[0]) + Work(workers[1..])
  }

  /** Bounds the number of steps left before the group ends. */
  function Measure(s: State): nat
  {
    5 * |s.queue| + Work(s.workers) + 2 * |s.jobs| + (if s.sqlite.Inserting? then 1 else 0)
    + match s.phase case Running => 4 case Closing => 1 case _ => 0
  }

  lemma {:induction false} WorkUpdate(workers: seq<Worker>, w: nat, x: Worker)
    requires w < |workers|
    ensures Work(workers[w := x]) + WorkerWork(workers[w]) == Work(workers) + WorkerWork(x)
  {
    if w == 0 {
      assert workers[w := x][1..] == workers[1..];
    } else {
      assert workers[w := x][1..] == workers[1..][w - 1 := x];
      WorkUpdate(workers[1..], w - 1, x);
    }
  }

  lemma {:induction false} CancelledWork(workers: seq<Worker>)
    requires AllCancelled(workers)
    ensures Work(workers) == 0
  {
    if workers != [] { CancelledWork(workers[1..]); }
  }

  lemma FailLowersMeasure(s: State)
    requires s.phase == Running
    ensures Measure(FailGroup(s)) < Measure(s)
  {
    CancelledWork(FailGroup(s).workers);
  }

  lemma CommitLowersMeasure(s: State)
    requires s.sqlite.Inserting?
    requires AllCancelled(s.workers) || s.phase == Running || AllFinished(s.workers)
    ensures Measure(CommitRows(s)) < Measure(s)
  {
    if s.sqlite.owner.OfWorker? && s.sqlite.owner.worker < |s.workers| {
      var w := s.sqlite.owner.worker;
      WorkUpdate(s.workers, w, Idle);
      if s.workers[w].FailFlushing? {
        FailLowersMeasure(s.(table := s.table + s.sqlite.rows, sqlite := Ready));
      }
    }
  }

  lemma WorkerLowersMeasure(s: State, w: nat, x: Worker, jobs: seq<JobOwner>)
    requires w < |s.workers| && WorkerWork(x) + 2 * |jobs| < WorkerWork(s.workers[w]) + 2 * |s.jobs|
    ensures Measure(s.(workers := s.workers[w := x], jobs := jobs)) < Measure(s)
  {
    hide Work;
    WorkUpdate(s.workers, w, x);
  }

  lemma PopLowersMeasure(s: State, w: nat)
    requires w < |s.workers| && s.workers[w].Idle?
    ensures Measure(PopLeft(s, w)) < Measure(s)
  {
    hide Work;
    WorkUpdate(s.workers, w, PopLeft(s, w).workers[w]);
  }

  lemma AddLowersMeasure(s: State, w: nat, data: Bytes)
    requires w < |s.workers| && s.workers[w].Fetching?
    ensures Measure(AddBlockData(s, w, data)) < Measure(s)
  {
    hide Work;
    WorkUpdate(s.workers, w, Checking);
  }

  lemma StealLowersMeasure(s: State)
    requires s.sqlite.Ready? && s.jobs != []
    ensures Measure(StealBuffer(s)) < Measure(s)
  {
    hide Work;
    if s.jobs[0].OfWorker? && s.jobs[0].worker < |s.workers| {
      var w, after := s.jobs[0].worker, StealBuffer(s).workers;
      assert after == s.workers[w := after[w]];
      WorkUpdate(s.workers, w, after[w]);
    }
  }

  lemma StepLowersMeasure(s: State, e: Event, content: map<nat, Bytes>)
    requires Shape(s) && !e.Retry? && Step(s, e, content) != s
    ensures Measure(Step(s, e, content)) < Measure(s)
  {
    hide Measure, PopLeft, AddBlockData, FailGroup, StealBuffer, CommitRows;
    match e
    case Pop(w) => PopLowersMeasure(s, w);
    case ReadOk(w) => AddLowersMeasure(s, w, content[s.workers[w].id]);
    case ReadMissing(w) => FailLowersMeasure(s);
    case ReadUnavailable(w) => WorkerLowersMeasure(s, w, FailQueued(s.workers[w].id), s.jobs + [OfWorker(w)]);
    case CheckLimit(w) =>
      WorkerLowersMeasure(s, w, FlushQueued, s.jobs + [OfWorker(w)]);
      WorkerLowersMeasure(s, w, Idle, s.jobs);
    case Steal => StealLowersMeasure(s);
    case Commit => CommitLowersMeasure(s);
    case CloseGroup => ClosingLowersMeasure(s);
  }

  lemma ClosingLowersMeasure(s: State)
    requires s.phase == Running
    ensures Measure(s.(phase := Closing, jobs := s.jobs + [OfGroup])) < Measure(s)
  {
  }

  /** A task that waits for a flush has one queued or running, and only a failed group cancels. */
  ghost predicate JobsMatch(s: State)
  {
    forall w | 0 <= w < |s.workers| ::
      && (s.workers[w].FlushQueued? || s.workers[w].FailQueued? ==> OfWorker(w) in s.jobs)
      && (s.workers[w].Flushing? || s.workers[w].FailFlushing? ==>
            s.sqlite.Inserting? && s.sqlite.owner == OfWorker(w))
      && (s.workers[w].Cancelled? ==> s.phase == Failed)
  }

  lemma StepKeepsJobsMatch(s: State, e: Event, content: map<nat, Bytes>)
    requires Shape(s) && JobsMatch(s)
    ensures JobsMatch(Step(s, e, content))
  {
    var t := Step(s, e, content);
    if e.Steal? && t != s {
      assert s.jobs == [s.jobs[0]] + t.jobs;
    }
  }

  /** No group is ever stuck: while it runs, some event other than a failure changes the state. */
  lemma GroupIsNeverStuck(s: State, content: map<nat, Bytes>) returns (e: Event)
    requires Shape(s) && JobsMatch(s)
    requires s.phase == Running || s.phase == Closing
    requires forall w | 0 <= w < |s.workers| && s.workers[w].Fetching? :: s.workers[w].id in content
    ensures !IsFailure(e) && Step(s, e, content) != s
  {
    if s.sqlite.Inserting? {
      e := Commit;
    } else if s.jobs != [] {
      e := Steal;
    } else if AllFinished(s.workers) {
      e := CloseGroup;
    } else {
      var w :| 0 <= w < |s.workers| && !s.workers[w].Finished?;
      e := if s.workers[w].Idle? then Pop(w) else if s.workers[w].Fetching? then ReadOk(w) else CheckLimit(w);
      assert Step(s, e, content).workers[w] != s.workers[w];
    }
  }

  ghost predicate Available(s: State, content: map<nat, Bytes>)
  {
    && (forall i | 0 <= i < |s.queue| :: s.queue[i] in content)
    && (forall w | 0 <= w < |s.workers| && s.workers[w].Fetching? :: s.workers[w].id in content)
  }

  lemma StepKeepsAvailable(s: State, e: Event, content: map<nat, Bytes>)
    requires Available(s, content)
    ensures Available(Step(s, e, content), content)
  {
  }

  /** From any state a failure-free group can be in, it can complete. With the two lemmas above it
      cannot fail to: each step that changes something brings the end closer, and one is always possible. */
  lemma {:induction false} GroupCompletes(s: State, content: map<nat, Bytes>) returns (events: seq<Event>)
    requires Shape(s) && JobsMatch(s) && NothingFailed(s) && Available(s, content)
    ensures Run(s, events, content).phase == Completed
    ensures forall i | 0 <= i < |events| :: !IsFailure(events[i])
    ensures |events| <= Measure(s)
    decreases Measure(s)
  {
    if s.phase == Completed {
      events := [];
    } else {
      var e := GroupIsNeverStuck(s, content);
      var t := Step(s, e, content);
      StepLowersMeasure(s, e, content);
      StepKeepsShape(s, e, content);
      StepKeepsJobsMatch(s, e, content);
      StepKeepsAvailable(s, e, content);
      NoFailureDropsNothing(s, [e], content);
      assert Run(s, [e], content) == t by { assert [e][1..] == []; assert Run(t, [], content) == t; }
      var rest := GroupCompletes(t, content);
      events := [e] + rest;
      assert events[1..] == rest;
    }
  }

  /** Some schedule without failures takes a batch whose data is stored to its end. */
  lemma BatchCompletes(batch: seq<nat>, before: seq<BlockRow>, content: map<nat, Bytes>) returns (events: seq<Event>)
    requires forall id | id in batch :: id in content
    ensures FailureFree(events) && Run(Start(batch, before), events, content).phase == Completed
  {
    hide Run;
    events := GroupCompletes(Start(batch, before), content);
  }

  // ---------- order, and what a failure saves ----------

  ghost predicate IsSuffix(queue: seq<nat>, batch: seq<nat>)
  {
    |queue| <= |batch| && queue == batch[|batch| - |queue|..]
  }

  lemma StepKeepsSuffix(s: State, e: Event, content: map<nat, Bytes>, batch: seq<nat>)
    requires IsSuffix(s.queue, batch)
    ensures IsSuffix(Step(s, e, content).queue, batch)
  {
  }

  /** Blocks are asked for in the order of the batch: the deque is always the end of it. */
  lemma {:induction false} QueueIsEndOfBatch(s: State, events: seq<Event>, content: map<nat, Bytes>, batch: seq<nat>)
    requires IsSuffix(s.queue, batch)
    ensures IsSuffix(Run(s, events, content).queue, batch)
    decreases |events|
  {
    if events != [] {
      StepKeepsSuffix(s, events[0], content, batch);
      QueueIsEndOfBatch(Step(s, events[0], content), events[1..], content, batch);
    }
  }

  /** A row on its way to the table while task `w` is giving up: in memory until the last flush of that
      task starts, with the SQLite thread until it ends, in the table when the group fails. */
  ghost predicate OnItsWay(s: State, w: nat, row: BlockRow)
  {
    || row in s.table
    || (w < |s.workers| && s.workers[w].FailQueued? && (row in s.buffer || row in InsertingRows(s)))
    || (w < |s.workers| && s.workers[w].FailFlushing? && row in InsertingRows(s))
  }

  /** Task `w` is giving up, and nobody else is. */
  ghost predicate OnlyFails(s: State, w: nat)
  {
    && w < |s.workers| && (s.workers[w].FailQueued? || s.workers[w].FailFlushing?)
    && forall v | 0 <= v < |s.workers| && v != w :: !s.workers[v].FailQueued? && !s.workers[v].FailFlushing?
  }

  lemma StealSaves(s: State, w: nat, row: BlockRow)
    requires s.sqlite.Ready? && s.jobs != [] && OnlyFails(s, w) && OnItsWay(s, w, row)
    ensures OnlyFails(StealBuffer(s), w) && OnItsWay(StealBuffer(s), w, row)
  {
  }

  lemma CommitSaves(s: State, w: nat, row: BlockRow)
    requires Shape(s) && JobsMatch(s) && s.sqlite.Inserting? && OnlyFails(s, w) && OnItsWay(s, w, row)
    ensures row in CommitRows(s).table || (OnlyFails(CommitRows(s), w) && OnItsWay(CommitRows(s), w, row))
  {
  }

  lemma StepSaves(s: State, e: Event, content: map<nat, Bytes>, w: nat, row: BlockRow)
    requires Shape(s) && JobsMatch(s) && OnlyFails(s, w) && OnItsWay(s, w, row) && !IsFailure(e)
    ensures var t := Step(s, e, content); row in t.table || (OnlyFails(t, w) && OnItsWay(t, w, row))
  {
    hide StealBuffer, CommitRows;
    if e.Steal? && s.sqlite.Ready? && s.jobs != [] { StealSaves(s, w, row); }
    if e.Commit? && s.sqlite.Inserting? { CommitSaves(s, w, row); }
  }

  lemma {:induction false} StoredStaysStored(s: State, events: seq<Event>, content: map<nat, Bytes>, row: BlockRow)
    requires row in s.table
    ensures row in Run(s, events, content).table
    decreases |events|
  {
    if events != [] { StoredStaysStored(Step(s, events[0], content), events[1..], content, row); }
  }

  /** When the blockstore fails one task, what the tasks have in memory is not thrown away with the group:
      all of it is in the table by the time the group fails. */
  lemma {:induction false} FailureSavesBuffer(s: State, events: seq<Event>, content: map<nat, Bytes>, w: nat,
                                              row: BlockRow)
    requires Shape(s) && JobsMatch(s) && OnlyFails(s, w) && OnItsWay(s, w, row)
    requires FailureFree(events)
    ensures Run(s, events, content).phase == Failed ==> row in Run(s, events, content).table
    decreases |events|
  {
    if events != [] {
      var t := Step(s, events[0], content);
      StepSaves(s, events[0], content, w, row);
      if row in t.table {
        StoredStaysStored(t, events[1..], content, row);
      } else {
        StepKeepsShape(s, events[0], content);
        StepKeepsJobsMatch(s, events[0], content);
        FailureSavesBuffer(t, events[1..], content, w, row);
      }
    }
  }

  /** Such is the state when a task finds the blockstore unavailable while no other has. */
  lemma UnavailableStartsFailing(s: State, w: nat, content: map<nat, Bytes>, row: BlockRow)
    requires Shape(s) && JobsMatch(s) && NothingFailed(s) && CanRun(s, w) && s.workers[w].Fetching?
    requires row in s.buffer || row in InsertingRows(s)
    ensures var t := Step(s, ReadUnavailable(w), content);
            Shape(t) && JobsMatch(t) && OnlyFails(t, w) && OnItsWay(t, w, row)
  {
    StepKeepsShape(s, ReadUnavailable(w), content);
    StepKeepsJobsMatch(s, ReadUnavailable(w), content);
  }

  /** A block that the blockstore does not have ends the group as soon as it is asked for. */
  lemma MissingBlockFails(s: State, w: nat, content: map<nat, Bytes>)
    requires CanRun(s, w) && s.workers[w].Fetching? && s.workers[w].id !in content
    ensures Step(s, ReadMissing(w), content).phase == Failed
    ensures Step(s, ReadOk(w), content) == s
  {
  }

  /** And no group ever completes with such a block in its batch, unless a failure made it give the block
      up. */
  lemma MissingBlockIsNotPassedOver(batch: seq<nat>, before: seq<BlockRow>, content: map<nat, Bytes>,
                                    events: seq<Event>, id: nat)
    requires Genuine(before, content) && id in batch && id !in content
    ensures var s := Run(Start(batch, before), events, content); s.phase == Completed ==> id in s.dropped
  {
    hide Run, Places;
    StartIsSafe(batch, before, content);
    RunIsSafe(Start(batch, before), events, batch, before, content);
    var s := Run(Start(batch, before), events, content);
    if s.phase == Completed { CompletedStoresBatch(s, batch, before, content, id); }
  }
}
