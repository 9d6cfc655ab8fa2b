/** The resumable realm export (server/parsec/realm_export.py).

    The exporter copies one realm into an output database, commit by commit. It can be killed
    between any two commits and started again on the same database, while clients keep uploading to
    the server. Everything outside the exporter's control is in an `Environment`, over which all
    statements quantify. */
module RealmExport {
  import opened Basics
  import opened Ballpark
  import opened SequentialRows
  import opened RealmServer
  import opened ExportTarget
  import opened Wrappers
  import BlockFetch

  const VLOB_EXPORT_BATCH_SIZE: nat := 100_000
  const BLOCK_METADATA_EXPORT_BATCH_SIZE: nat := 1_000_000

  datatype Outcome =
    | Done | Killed | SnapshotTooRecent | RealmDidntExist | NoCommonCertificate | OutputDbMismatch | BlockstoreError

  // ---------- the environment ----------

  /** What happens while the exporter awaits: uploads reach the server, and the process may die. */
  datatype Pause = Pause(uploads: seq<Upload>, killed: bool)

  ghost predicate NoKill(pauses: seq<Pause>)
  {
    forall i | 0 <= i < |pauses| :: !pauses[i].killed
  }

  ghost predicate AllPrompt(pauses: seq<Pause>, delay: nat)
  {
    forall i | 0 <= i < |pauses| :: Prompt(pauses[i].uploads, delay)
  }

  /** `delay` is a limit on how long requests take, if there is one. */
  class Environment {
    var server: Server
    var pauses: seq<Pause>
    var groups: seq<seq<BlockFetch.Event>>
    ghost const delay: Option<nat>

    constructor (server: Server, pauses: seq<Pause>, groups: seq<seq<BlockFetch.Event>>, ghost delay: Option<nat>)
      ensures this.server == server && this.pauses == pauses && this.groups == groups && this.delay == delay
    {
      this.server, this.pauses, this.groups, this.delay := server, pauses, groups, delay;
    }

    ghost predicate Valid()
      reads this
    {
      server.Valid() && (delay.Some? ==> AllPrompt(pauses, delay.value))
    }

    /** The server after the next pause. */
    function Answered(): Server
      reads this
    {
      if pauses == [] then server else AcceptAll(server, pauses[0].uploads)
    }

    /** Some time after the server was in state `moment`. */
    ghost predicate Since(moment: Server)
      reads this
    {
      && Valid() && moment.Valid() && Extends(moment, server)
      && (delay.Some? ==> DatedSince(moment, server, delay.value))
    }

    method Await(ghost moment: Server) returns (killed: bool)
      requires Since(moment)
      modifies this`server, this`pauses
      ensures Since(moment) && Since(old(server)) && server == old(Answered())
      ensures killed <==> old(pauses) != [] && old(pauses)[0].killed
      ensures pauses == if old(pauses) == [] then [] else old(pauses)[1..]
      ensures old(NoKill(pauses)) ==> !killed && NoKill(pauses)
    {
      hide Extends, DatedSince;
      ghost var before := server;
      killed := false;
      if pauses == [] {
        ExtendsReflexive(server);
        if delay.Some? { DatedReflexive(server, delay.value); }
      } else {
        AcceptAllExtends(server, pauses[0].uploads);
        ExtendsTransitive(moment, server, AcceptAll(server, pauses[0].uploads));
        if delay.Some? {
          PromptIsDated(server, pauses[0].uploads, delay.value);
          DatedTransitive(moment, server, AcceptAll(server, pauses[0].uploads), delay.value);
        }
        server, killed, pauses := AcceptAll(server, pauses[0].uploads), pauses[0].killed, pauses[1..];
      }
    }
  }

  lemma SinceNow(env: Environment)
    requires env.Valid()
    ensures env.Since(env.server)
  {
    ExtendsReflexive(env.server);
    if env.delay.Some? { DatedReflexive(env.server, env.delay.value); }
  }

  /** The same about two states of the server. */
  ghost predicate Later(t: Server, s: Server, delay: Option<nat>)
  {
    s.Valid() && t.Valid() && Extends(s, t) && (delay.Some? ==> DatedSince(s, t, delay.value))
  }

  lemma LaterTransitive(t: Server, s: Server, r: Server, delay: Option<nat>)
    requires Later(t, s, delay) && Later(s, r, delay)
    ensures Later(t, r, delay)
  {
    ExtendsTransitive(r, s, t);
    if delay.Some? { DatedTransitive(r, s, t, delay.value); }
  }

  // ---------- the output database ----------

  class OutputTable {
    var rows: Table
    var done: bool

    constructor ()
      ensures rows == [] && !done
    {
      rows, done := [], false;
    }

    /** One committed `INSERT` of a batch; the primary key demands new ids. */
    method Insert(batch: Table)
      requires forall i | 0 <= i < |batch| :: !HasId(rows, batch[i].sequentialId)
      modifies this`rows
      ensures rows == old(rows) + batch
    {
      rows := rows + batch;
    }
  }

  ghost predicate UniqueKeys(rows: seq<BlockFetch.BlockRow>)
  {
    forall id :: BlockFetch.CountRows(rows, id) <= 1
  }

  /** The first three phases of a database, as a value. */
  datatype Phases = Phases(
    certificates: Certificates,
    certificatesDone: bool,
    vlobs: Table,
    vlobsDone: bool,
    blocks: Table,
    blocksDone: bool)

  /** A phase that was done is left alone, and one that gets done is done as the target has it. */
  ghost predicate Continues(was: Phases, now: Phases, target: Export)
  {
    && (if was.certificatesDone then now.certificatesDone && now.certificates == was.certificates
        else now.certificatesDone ==> now.certificates == target.certificates)
    && (if was.vlobsDone then now.vlobsDone && now.vlobs == was.vlobs
        else now.vlobsDone ==> now.vlobs == target.vlobs)
    && (if was.blocksDone then now.blocksDone && now.blocks == was.blocks
        else now.blocksDone ==> now.blocks == target.blocks)
  }

  class OutputDb {
    var info: Option<Info>
    var certificates: Certificates
    var certificatesDone: bool
    const vlobs: OutputTable
    const blocks: OutputTable
    var blockData: seq<BlockFetch.BlockRow>
    var blocksDataDone: bool

    constructor ()
      ensures Empty() && fresh(vlobs) && fresh(blocks)
    {
      info, certificates, certificatesDone, blockData, blocksDataDone := None, NoCertificates, false, [], false;
      vlobs := new OutputTable();
      blocks := new OutputTable();
    }

    ghost predicate Empty()
      reads this, vlobs, blocks
    {
      && vlobs != blocks
      && info == None
      && Reached() == Phases(NoCertificates, false, [], false, [], false)
      && blockData == [] && !blocksDataDone
    }

    function Reached(): Phases
      reads this, vlobs, blocks
    {
      Phases(certificates, certificatesDone, vlobs.rows, vlobs.done, blocks.rows, blocks.done)
    }

    /** Everything a run may rely on when it opens a database another run left behind: each table is
        the beginning of what the server has for the snapshot, and data is that of blocks in the table. */
    ghost predicate Sound(s: Server, snapshot: DateTime)
      reads this, vlobs, blocks
    {
      && vlobs != blocks
      && vlobs.rows <= CompleteExport(s, snapshot).vlobs
      && blocks.rows <= CompleteExport(s, snapshot).blocks
      && (!blocks.done ==> blockData == [])
      && UniqueKeys(blockData)
      && BlockFetch.Genuine(blockData, BlockContent(blocks.rows, s.blockstore))
      && (blocksDataDone ==> blocks.done && NextMissing(blocks.rows, blockData) == [])
    }

    /** The database as the reader of a finished export sees it: tables by primary key. */
    function Contents(): Export
      requires info.Some?
      reads this, vlobs, blocks
    {
      Export(info.value, certificates, vlobs.rows, blocks.rows, ByKey(blockData))
    }

    ghost predicate Finished()
      reads this, vlobs, blocks
    {
      info.Some? && certificatesDone && vlobs.done && blocks.done && blocksDataDone
    }
  }

  function ByKey(rows: seq<BlockFetch.BlockRow>): map<nat, Bytes>
  {
    if rows == [] then map[]
    else ByKey(rows[..|rows| - 1])[rows[|rows| - 1].0 := rows[|rows| - 1].1]
  }

  lemma BlocksOfExportAreStored(s: Server, snapshot: DateTime, rows: Table)
    requires s.Valid() && rows <= CompleteExport(s, snapshot).blocks
    ensures Ascending(rows)
    ensures forall i | 0 <= i < |rows| :: rows[i].payload.Block? && rows[i].payload.blockId in s.blockstore
  {
    hide UpTo, UpperBound, AtSnapshot, DoCertificates, BlockContent;
    PartsOfExport(s, snapshot);
    SelectionIsCopy(s.blocks, UpperBound(s.blocks, snapshot));
    PrefixIsAscending(rows, CompleteExport(s, snapshot).blocks);
    SelectedBlocksAreStored(s, UpperBound(s.blocks, snapshot));
  }

  /** What was sound stays sound: uploads only add to what the server has for a snapshot. */
  lemma SoundLater(db: OutputDb, s: Server, t: Server, snapshot: DateTime)
    requires s.Valid() && t.Valid() && Extends(s, t) && db.Sound(s, snapshot)
    ensures db.Sound(t, snapshot)
    ensures BlockContent(db.blocks.rows, t.blockstore) == BlockContent(db.blocks.rows, s.blockstore)
  {
    hide CompleteExport, Extends, UniqueKeys, BlockFetch.Genuine, BlockContent, NextMissing;
    ExtendsKeepsTables(s, t);
    ExportGrows(s, t, snapshot);
    BlocksOfExportAreStored(s, snapshot, db.blocks.rows);
    BlockContentStable(db.blocks.rows, s.blockstore, t.blockstore);
  }

  // ---------- the sequential phases ----------

  /** What a server offers for one table: the target is the selection up to its last id. */
  ghost predicate Offers(source: Table, target: Table, bound: nat)
  {
    && Ascending(source)
    && target == UpTo(source, bound)
    && bound == MaxId(target)
    && (bound == 0 || HasId(source, bound))
  }

  /** Whatever was uploaded since, the server still offers what it did when it was in state `moment`. */
  lemma StillOffers(source: Table, grown: Table, snapshot: DateTime)
    requires Ascending(grown) && source <= grown
    ensures Offers(grown, UpTo(source, UpperBound(source, snapshot)), UpperBound(source, snapshot))
  {
    hide UpperBound, UpTo, MaxId;
    var bound := UpperBound(source, snapshot);
    PrefixIsAscending(source, grown);
    UpperBoundIsReal(source, snapshot);
    SelectionIsCopy(source, bound);
    SelectionIsKept(source, grown, snapshot);
    if bound != 0 {
      var k :| 0 <= k < |source| && source[k].sequentialId == bound;
      assert grown[k] == source[k];
    } else {
      NothingUpToZero(source);
    }
  }

  lemma NothingUpToZero(rows: Table)
    requires Ascending(rows)
    ensures UpTo(rows, 0) == [] && MaxId(UpTo(rows, 0)) == 0
  {
    SelectionsSplit(rows, 0, 0);
  }

  lemma ServerOffers(env: Environment, snapshot: DateTime, moment: Server, kind: Kind)
    requires env.Since(moment)
    ensures Offers(env.server.Rows(kind), CompleteExport(moment, snapshot).Rows(kind), UpperBound(moment.Rows(kind),
            snapshot))
  {
    ExtendsKeepsTables(moment, env.server);
    PartsOfExport(moment, snapshot);
    hide CompleteExport, Offers;
    StillOffers(moment.Rows(kind), env.server.Rows(kind), snapshot);
  }

  /** A partial copy is the selection up to its own last id, so resuming from that id is sound. */
  lemma PartialCopyResumes(source: Table, target: Table, bound: nat, copied: Table)
    requires Offers(source, target, bound) && copied <= target
    ensures copied == UpTo(source, MaxId(copied))
    ensures MaxId(copied) <= bound
    ensures MaxId(copied) == bound <==> copied == target
  {
    var n := AscendingSplits(source, bound);
    assert copied == source[..|copied|];
    PrefixIsCopy(source, |copied|);
    PrefixIsCopy(source, n);
    if |copied| < n && copied != [] {
      assert source[|copied| - 1].sequentialId < source[n - 1].sequentialId;
    }
  }

  /** What the next batch, cut at the bound, does to a partial copy. */
  lemma BatchContinuesCopy(source: Table, target: Table, bound: nat, copied: Table, batchSize: nat)
    requires 0 < batchSize && Offers(source, target, bound) && copied <= target && MaxId(copied) < bound
    ensures var items := CutAtBound(NextBatch(source, MaxId(copied), batchSize), bound);
            && items != []
            && MaxId(copied) < items[|items| - 1].sequentialId == MaxId(copied + items)
            && (forall i | 0 <= i < |items| :: !HasId(copied, items[i].sequentialId))
            && copied + items <= target
  {
    PartialCopyResumes(source, target, bound, copied);
    var marker := MaxId(copied);
    BatchExtendsCopy(source, marker, bound, batchSize);
    var items := CutAtBound(NextBatch(source, marker, batchSize), bound);
    SelectionIsPrefix(source, MaxId(copied + items), bound);
    MaxIdIsPresent(copied);
  }

  /** One iteration: download, cut, commit. A kill leaves the table as it was. */
  method CopyBatch(table: OutputTable, env: Environment, kind: Kind, marker: nat, bound: nat, batchSize: nat,
                   ghost snapshot: DateTime, ghost moment: Server)
    returns (killed: bool, next: nat, copiedBytes: nat)
    requires env.Since(moment) && 0 < batchSize
    requires bound == UpperBound(moment.Rows(kind), snapshot)
    requires table.rows <= CompleteExport(moment, snapshot).Rows(kind) && marker == MaxId(table.rows) < bound
    modifies table`rows, env`server, env`pauses
    ensures env.Since(moment)
    ensures table.rows <= CompleteExport(moment, snapshot).Rows(kind)
    ensures killed ==> table.rows == old(table.rows)
    ensures next == MaxId(table.rows) && (!killed ==> marker < next)
    ensures SumSizes(table.rows) == SumSizes(old(table.rows)) + copiedBytes
    ensures old(NoKill(env.pauses)) ==> !killed && NoKill(env.pauses)
  {
    hide Extends, DatedSince, CompleteExport, UpperBound, NextBatch, CutAtBound, NoKill;
    ghost var target := CompleteExport(moment, snapshot).Rows(kind);
    next, copiedBytes := marker, 0;
    killed := env.Await(moment);
    if killed { return; }
    ServerOffers(env, snapshot, moment, kind);
    var items := CutAtBound(NextBatch(env.server.Rows(kind), marker, batchSize), bound);
    BatchContinuesCopy(env.server.Rows(kind), target, bound, table.rows, batchSize);
    killed := env.Await(moment);
    if killed { return; }
    SumSizesConcat(table.rows, items);
    table.Insert(items);
    next, copiedBytes := items[|items| - 1].sequentialId, SumSizes(items);
  }

  lemma CopyIsWithinBound(env: Environment, snapshot: DateTime, moment: Server, kind: Kind, copied: Table)
    requires env.Since(moment) && copied <= CompleteExport(moment, snapshot).Rows(kind)
    ensures var bound := UpperBound(moment.Rows(kind), snapshot);
            MaxId(copied) <= bound && (MaxId(copied) == bound ==> copied == CompleteExport(moment, snapshot).Rows(kind))
  {
    hide CompleteExport, UpperBound, Extends, DatedSince;
    ServerOffers(env, snapshot, moment, kind);
    PartialCopyResumes(
      env.server.Rows(kind), CompleteExport(moment, snapshot).Rows(kind), UpperBound(moment.Rows(kind), snapshot),
        copied);
  }

  /** Copies one table: `_do_export_vlobs` and `_do_export_blocks_metadata`. The marker and the byte
      counter live in memory and are rebuilt from the table. Batches are never empty while the
      marker is below the bound, so the source's guard against that case does not fire. */
  method CopyTable(table: OutputTable, env: Environment, kind: Kind, bound: nat, batchSize: nat,
                   ghost snapshot: DateTime, ghost moment: Server)
    returns (outcome: Outcome, exportedBytes: nat)
    requires env.Since(moment) && 0 < batchSize
    requires bound == UpperBound(moment.Rows(kind), snapshot)
    requires table.rows <= CompleteExport(moment, snapshot).Rows(kind)
    modifies table, env`server, env`pauses
    ensures env.Since(moment)
    ensures table.rows <= CompleteExport(moment, snapshot).Rows(kind)
    ensures if old(table.done) then table.done && table.rows == old(table.rows)
            else table.done ==> table.rows == CompleteExport(moment, snapshot).Rows(kind)
    ensures outcome == Done || outcome == Killed
    ensures outcome == Done <==> table.done
    ensures exportedBytes == SumSizes(table.rows)
    ensures old(NoKill(env.pauses)) ==> outcome == Done && NoKill(env.pauses)
  {
    hide Extends, DatedSince, CompleteExport, UpperBound, NoKill;
    var marker := MaxId(table.rows);
    exportedBytes := SumSizes(table.rows);
    if table.done { return Done, exportedBytes; }
    CopyIsWithinBound(env, snapshot, moment, kind, table.rows);
    while marker < bound
      invariant env.Since(moment)
      invariant table.rows <= CompleteExport(moment, snapshot).Rows(kind) && !table.done
      invariant marker == MaxId(table.rows) <= bound
      invariant exportedBytes == SumSizes(table.rows)
      invariant old(NoKill(env.pauses)) ==> NoKill(env.pauses)
      decreases bound - marker
    {
      var killed, next, copiedBytes := CopyBatch(table, env, kind, marker, bound, batchSize, snapshot, moment);
      marker, exportedBytes := next, exportedBytes + copiedBytes;
      if killed { return Killed, exportedBytes; }
      CopyIsWithinBound(env, snapshot, moment, kind, table.rows);
    }
    CopyIsWithinBound(env, snapshot, moment, kind, table.rows);
    var killed := env.Await(moment);
    if killed { return Killed, exportedBytes; }
    table.done := true;
    outcome := Done;
  }

  // ---------- the block data phase ----------

  /** Ids of the blocks without a data row, in table order. */
  function MissingIds(blocks: Table, data: seq<BlockFetch.BlockRow>): seq<nat>
  {
    if blocks == [] then []
    else
      (if BlockFetch.CountRows(data, blocks[0].sequentialId) == 0 then [blocks[0].sequentialId] else [])
      + MissingIds(blocks[1..], data)
  }

  lemma {:induction false} ContentKeys(rows: Table, store: map<nat, Bytes>, id: nat)
    requires forall i | 0 <= i < |rows| :: rows[i].payload.Block? && rows[i].payload.blockId in store
    ensures id in BlockContent(rows, store) <==> HasId(rows, id)
  {
    if rows != [] {
      var n := |rows| - 1;
      ContentKeys(rows[..n], store, id);
      if HasId(rows, id) && rows[n].sequentialId != id {
        var i :| 0 <= i < |rows| && rows[i].sequentialId == id;
        assert rows[..n][i].sequentialId == id;
      }
      if HasId(rows[..n], id) {
        var i :| 0 <= i < n && rows[..n][i].sequentialId == id;
        assert rows[i].sequentialId == id;
      }
    }
  }

  lemma HasIdCons(rows: Table, id: nat)
    requires rows != []
    ensures HasId(rows, id) <==> rows[0].sequentialId == id || HasId(rows[1..], id)
  {
  }

  lemma {:induction false} MissingCount(rows: Table, data: seq<BlockFetch.BlockRow>, id: nat)
    requires Ascending(rows)
    ensures BlockFetch.Count(MissingIds(rows, data), id)
         == if HasId(rows, id) && BlockFetch.CountRows(data, id) == 0 then 1 else 0
  {
    if rows != [] {
      var rest := rows[1..];
      AscendingSlice(rows, 1, |rows|);
      assert rest == rows[1..|rows|];
      MissingCount(rest, data, id);
      var head := if BlockFetch.CountRows(data, rows[0].sequentialId) == 0 then [rows[0].sequentialId] else [];
      BlockFetch.CountConcat(head, MissingIds(rest, data), id);
      HasIdCons(rows, id);
      forall i | 0 <= i < |rest| ensures rows[0].sequentialId < rest[i].sequentialId {
        assert rest[i] == rows[i + 1];
      }
    }
  }

  /** `SELECT ... WHERE block_data.data IS NULL LIMIT ?` */
  function NextMissing(rows: Table, data: seq<BlockFetch.BlockRow>): seq<nat>
  {
    var missing := MissingIds(rows, data);
    if |missing| <= BLOCK_METADATA_EXPORT_BATCH_SIZE then missing else missing[..BLOCK_METADATA_EXPORT_BATCH_SIZE]
  }

  lemma NextMissingIsFresh(rows: Table, data: seq<BlockFetch.BlockRow>)
    requires Ascending(rows) && UniqueKeys(data)
    ensures BlockFetch.FreshBatch(NextMissing(rows, data), data)
    ensures |NextMissing(rows, data)| <= BLOCK_METADATA_EXPORT_BATCH_SIZE
  {
    var missing, batch := MissingIds(rows, data), NextMissing(rows, data);
    forall id ensures BlockFetch.Count(batch, id) + BlockFetch.CountRows(data, id) <= 1 {
      MissingCount(rows, data, id);
      assert missing == batch + missing[|batch|..];
      BlockFetch.CountConcat(batch, missing[|batch|..], id);
    }
  }

  lemma {:induction false} ByKeyIsContent(data: seq<BlockFetch.BlockRow>, content: map<nat, Bytes>, id: nat)
    requires BlockFetch.Genuine(data, content)
    ensures id in ByKey(data) <==> 0 < BlockFetch.CountRows(data, id)
    ensures id in ByKey(data) ==> id in content && ByKey(data)[id] == content[id]
  {
    if data != [] {
      var n := |data| - 1;
      assert data == data[..n] + [data[n]];
      BlockFetch.CountRowsConcat(data[..n], [data[n]], id);
      ByKeyIsContent(data[..n], content, id);
    }
  }

  lemma NothingMissingMeansComplete(rows: Table, data: seq<BlockFetch.BlockRow>, store: map<nat, Bytes>)
    requires Ascending(rows)
    requires forall i | 0 <= i < |rows| :: rows[i].payload.Block? && rows[i].payload.blockId in store
    requires BlockFetch.Genuine(data, BlockContent(rows, store)) && MissingIds(rows, data) == []
    ensures ByKey(data) == BlockContent(rows, store)
  {
    var content := BlockContent(rows, store);
    forall id ensures id in ByKey(data) <==> id in content
      ensures id in ByKey(data) ==> ByKey(data)[id] == content[id]
    {
      ByKeyIsContent(data, content, id);
      ContentKeys(rows, store, id);
      MissingCount(rows, data, id);
    }
  }

  /** The state a task group ends in. */
  ghost function GroupEnd(batch: seq<nat>, data: seq<BlockFetch.BlockRow>, events: seq<BlockFetch.Event>,
                          content: map<nat, Bytes>)
    : BlockFetch.State
  {
    BlockFetch.Run(BlockFetch.Start(batch, data), events, content)
  }

  /** One task group over one batch, scheduled by the environment. The table is written at commits
      only, so whatever the schedule, the rows found after a kill are whole commits. */
  method FetchBlocks(db: OutputDb, env: Environment, batch: seq<nat>, content: map<nat, Bytes>)
    returns (outcome: Outcome)
    requires env.groups != []
    requires UniqueKeys(db.blockData) && BlockFetch.FreshBatch(batch, db.blockData)
    requires BlockFetch.Genuine(db.blockData, content)
    modifies db`blockData, env`groups
    ensures env.groups == old(env.groups)[1..]
    ensures UniqueKeys(db.blockData)
    ensures BlockFetch.Genuine(db.blockData, content)
    ensures var end := GroupEnd(batch, old(db.blockData), old(env.groups)[0], content);
            db.blockData == end.table && (outcome == Done <==> end.phase == BlockFetch.Completed)
    ensures outcome == Done || outcome == Killed || outcome == BlockstoreError
    ensures outcome == Done && BlockFetch.FailureFree(old(env.groups)[0]) ==>
              forall id | id in batch || BlockFetch.HasRow(old(db.blockData), id) :: BlockFetch.HasRow(db.blockData, id)
  {
    hide BlockFetch.Safe, BlockFetch.Genuine, BlockFetch.FreshBatch, BlockFetch.Step;
    hide BlockFetch.FailureFree, BlockFetch.HasRow;
    var events := env.groups[0];
    env.groups := env.groups[1..];
    ghost var before := db.blockData;
    var s := BlockFetch.Start(batch, db.blockData);
    BlockFetch.StartIsSafe(batch, before, content);
    assert events[0..] == events;
    for i := 0 to |events|
      invariant BlockFetch.Safe(s, batch, before, content) && db.blockData == s.table
      invariant env.groups == old(env.groups)[1..]
      invariant BlockFetch.Run(s, events[i..], content) == GroupEnd(batch, before, events, content)
    {
      BlockFetch.StepIsSafe(s, events[i], batch, before, content);
      assert events[i..][1..] == events[i + 1..];
      s := BlockFetch.Step(s, events[i], content);
      db.blockData := s.table;
    }
    SafeTable(s, batch, before, content);
    outcome := if s.phase == BlockFetch.Completed then Done
               else if s.phase == BlockFetch.Failed then BlockstoreError else Killed;
    if outcome == Done && BlockFetch.FailureFree(events) {
      BlockFetch.CleanGroupStoresBatch(batch, before, content, events);
    }
  }

  lemma SafeTable(s: BlockFetch.State, batch: seq<nat>, before: seq<BlockFetch.BlockRow>, content: map<nat, Bytes>)
    requires BlockFetch.Safe(s, batch, before, content) && BlockFetch.FreshBatch(batch, before)
    ensures UniqueKeys(s.table) && BlockFetch.Genuine(s.table, content)
  {
    forall id ensures BlockFetch.CountRows(s.table, id) <= 1 {
      assert BlockFetch.Places(s, id) <= 1;
    }
  }

  /** The task groups to come bring in all the data: each runs to its end, and they are enough. */
  ghost predicate DataCompletes(blocks: Table, data: seq<BlockFetch.BlockRow>, content: map<nat, Bytes>,
                                groups: seq<seq<BlockFetch.Event>>)
    decreases |groups|
  {
    var batch := NextMissing(blocks, data);
    batch == []
    || (groups != []
        && var end := GroupEnd(batch, data, groups[0], content);
           end.phase == BlockFetch.Completed && DataCompletes(blocks, end.table, content, groups[1..]))
  }

  /** Everything but the `blocksDataDone` flag, once the block table is done. */
  ghost predicate FetchingData(db: OutputDb, s: Server, snapshot: DateTime)
    reads db, db.blocks
  {
    && db.blocks.rows <= CompleteExport(s, snapshot).blocks
    && UniqueKeys(db.blockData)
    && BlockFetch.Genuine(db.blockData, BlockContent(db.blocks.rows, s.blockstore))
  }

  lemma ContentIsKept(env: Environment, snapshot: DateTime, moment: Server, rows: Table)
    requires env.Since(moment) && rows <= CompleteExport(moment, snapshot).blocks
    ensures Ascending(rows)
    ensures forall i | 0 <= i < |rows| :: rows[i].payload.Block? && rows[i].payload.blockId in env.server.blockstore
    ensures BlockContent(rows, env.server.blockstore) == BlockContent(rows, moment.blockstore)
  {
    hide CompleteExport, BlockContent;
    BlocksOfExportAreStored(moment, snapshot, rows);
    BlockContentStable(rows, moment.blockstore, env.server.blockstore);
  }

  lemma AllDataStored(s: Server, snapshot: DateTime, rows: Table, data: seq<BlockFetch.BlockRow>)
    requires s.Valid() && rows <= CompleteExport(s, snapshot).blocks
    requires BlockFetch.Genuine(data, BlockContent(rows, s.blockstore)) && NextMissing(rows, data) == []
    ensures ByKey(data) == BlockContent(rows, s.blockstore)
  {
    hide CompleteExport;
    BlocksOfExportAreStored(s, snapshot, rows);
    NothingMissingMeansComplete(rows, data, s.blockstore);
  }

  /** One turn of the outer loop: one batch of missing blocks, one task group. */
  method FetchMissing(db: OutputDb, env: Environment, batch: seq<nat>, ghost snapshot: DateTime, ghost moment: Server)
    returns (outcome: Outcome)
    requires env.Since(moment) && FetchingData(db, moment, snapshot)
    requires batch == NextMissing(db.blocks.rows, db.blockData)
    modifies db`blockData, env
    ensures env.Since(moment) && FetchingData(db, moment, snapshot)
    ensures outcome == Done || outcome == Killed || outcome == BlockstoreError
    ensures outcome == Done ==> |env.groups| < |old(env.groups)|
    ensures var content := BlockContent(db.blocks.rows, moment.blockstore);
            old(NoKill(env.pauses) && batch != []
              && DataCompletes(db.blocks.rows, db.blockData, content, env.groups)) ==>
              && outcome == Done && NoKill(env.pauses)
              && DataCompletes(db.blocks.rows, db.blockData, content, env.groups)
  {
    hide Extends, DatedSince, CompleteExport, UniqueKeys, NoKill, NextMissing;
    hide BlockFetch.Genuine, BlockFetch.FreshBatch, BlockContent;
    if env.groups == [] { return Killed; }
    ContentIsKept(env, snapshot, moment, db.blocks.rows);
    NextMissingIsFresh(db.blocks.rows, db.blockData);
    outcome := FetchBlocks(db, env, batch, BlockContent(db.blocks.rows, env.server.blockstore));
    var killed := env.Await(moment);
    if outcome == Done && killed { return Killed; }
  }

  method ExportBlocksData(db: OutputDb, env: Environment, ghost snapshot: DateTime, ghost moment: Server)
    returns (outcome: Outcome)
    requires env.Since(moment) && FetchingData(db, moment, snapshot)
    requires db.blocksDataDone ==> NextMissing(db.blocks.rows, db.blockData) == []
    modifies db`blockData, db`blocksDataDone, env
    ensures env.Since(moment) && FetchingData(db, moment, snapshot)
    ensures db.blocksDataDone ==> NextMissing(db.blocks.rows, db.blockData) == []
    ensures outcome == Done || outcome == Killed || outcome == BlockstoreError
    ensures outcome == Done ==>
              db.blocksDataDone && ByKey(db.blockData) == BlockContent(db.blocks.rows, moment.blockstore)
    ensures var content := BlockContent(db.blocks.rows, moment.blockstore);
            old(NoKill(env.pauses) && DataCompletes(db.blocks.rows, db.blockData, content, env.groups)) ==>
                outcome == Done
  {
    hide Extends, DatedSince, CompleteExport, UniqueKeys, NoKill, NextMissing;
    hide BlockFetch.Genuine, DataCompletes, BlockContent;
    ghost var content := BlockContent(db.blocks.rows, moment.blockstore);
    if !db.blocksDataDone {
      var killed := env.Await(moment);
      if killed { return Killed; }
      var batch := NextMissing(db.blocks.rows, db.blockData);
      while batch != []
        invariant env.Since(moment) && FetchingData(db, moment, snapshot)
        invariant !db.blocksDataDone
        invariant batch == NextMissing(db.blocks.rows, db.blockData)
        invariant old(NoKill(env.pauses) && DataCompletes(db.blocks.rows, db.blockData, content, env.groups)) ==>
                    NoKill(env.pauses) && DataCompletes(db.blocks.rows, db.blockData, content, env.groups)
        decreases |env.groups|
      {
        outcome := FetchMissing(db, env, batch, snapshot, moment);
        if outcome != Done { return; }
        batch := NextMissing(db.blocks.rows, db.blockData);
      }
      db.blocksDataDone := true;
    }
    AllDataStored(moment, snapshot, db.blocks.rows, db.blockData);
    outcome := Done;
  }

  // ---------- a schedule that completes ----------

  lemma {:induction false} MissingShrinks(
    blocks: Table, data: seq<BlockFetch.BlockRow>, more: seq<BlockFetch.BlockRow>)
    requires forall id :: BlockFetch.CountRows(data, id) > 0 ==> BlockFetch.CountRows(more, id) > 0
    ensures |MissingIds(blocks, more)| <= |MissingIds(blocks, data)|
    ensures (exists id :: id in MissingIds(blocks, data) && BlockFetch.CountRows(more, id) > 0) ==>
              |MissingIds(blocks, more)| < |MissingIds(blocks, data)|
  {
    if blocks != [] { MissingShrinks(blocks[1..], data, more); }
  }

  lemma {:induction false} MissingAreBlocks(blocks: Table, data: seq<BlockFetch.BlockRow>, id: nat)
    requires id in MissingIds(blocks, data)
    ensures HasId(blocks, id)
  {
    if blocks[0].sequentialId != id {
      MissingAreBlocks(blocks[1..], data, id);
      var i :| 0 <= i < |blocks[1..]| && blocks[1..][i].sequentialId == id;
      assert blocks[i + 1].sequentialId == id;
    }
  }

  /** Whatever data is there already, some schedule of task groups brings in the rest. */
  lemma {:induction false} ScheduleExists(blocks: Table, data: seq<BlockFetch.BlockRow>, content: map<nat, Bytes>)
    returns (groups: seq<seq<BlockFetch.Event>>)
    requires Ascending(blocks) && UniqueKeys(data) && BlockFetch.Genuine(data, content)
    requires forall id | HasId(blocks, id) :: id in content
    ensures DataCompletes(blocks, data, content, groups)
    decreases |MissingIds(blocks, data)|
  {
    hide UniqueKeys, BlockFetch.Genuine, BlockFetch.FreshBatch, BlockFetch.Run, BlockFetch.Start, BlockFetch.HasRow;
    var batch := NextMissing(blocks, data);
    if batch == [] {
      groups := [];
    } else {
      NextMissingIsFresh(blocks, data);
      forall id | id in batch ensures id in content { MissingAreBlocks(blocks, data, id); }
      var events := BlockFetch.BatchCompletes(batch, data, content);
      var end := GroupEnd(batch, data, events, content);
      BlockFetch.StartIsSafe(batch, data, content);
      BlockFetch.RunIsSafe(BlockFetch.Start(batch, data), events, batch, data, content);
      SafeTable(end, batch, data, content);
      BlockFetch.CleanGroupStoresBatch(batch, data, content, events);
      forall id ensures BlockFetch.CountRows(data, id) > 0 || id in batch ==> BlockFetch.CountRows(end.table, id) > 0 {
        BlockFetch.CountRowsPositive(data, id);
        BlockFetch.CountRowsPositive(end.table, id);
      }
      assert batch[0] in MissingIds(blocks, data);
      MissingShrinks(blocks, data, end.table);
      var rest := ScheduleExists(blocks, end.table, content);
      groups := [events] + rest;
      assert groups[1..] == rest;
    }
  }

  /** So a run can always finish, whatever an earlier one left behind. */
  lemma DataCanComplete(s: Server, snapshot: DateTime, rows: Table, data: seq<BlockFetch.BlockRow>)
    returns (groups: seq<seq<BlockFetch.Event>>)
    requires s.Valid() && rows <= CompleteExport(s, snapshot).blocks
    requires UniqueKeys(data) && BlockFetch.Genuine(data, BlockContent(rows, s.blockstore))
    ensures DataCompletes(rows, data, BlockContent(rows, s.blockstore), groups)
  {
    hide UniqueKeys, BlockFetch.Genuine, DataCompletes, CompleteExport, BlockContent;
    BlocksOfExportAreStored(s, snapshot, rows);
    forall id | HasId(rows, id) ensures id in BlockContent(rows, s.blockstore) { ContentKeys(rows, s.blockstore, id); }
    groups := ScheduleExists(rows, data, BlockContent(rows, s.blockstore));
  }

  // ---------- one run ----------

  lemma AnsweredCertificates(env: Environment, snapshot: DateTime, moment: Server)
    requires env.Since(moment)
    ensures DoCertificates(env.server, DoBaseInfo(moment, snapshot)) == CompleteExport(moment, snapshot).certificates
  {
    hide DoCertificates, DoBaseInfo, Extends;
    CertificatesAreStable(moment, env.server, snapshot);
  }

  ghost predicate KilledAtOnce(pauses: seq<Pause>) { pauses != [] && pauses[0].killed }

  method ExportCertificates(db: OutputDb, env: Environment, base: BaseInfo,
                            ghost snapshot: DateTime, ghost moment: Server)
    returns (outcome: Outcome)
    requires env.Since(moment) && base == DoBaseInfo(moment, snapshot)
    modifies db`certificates, db`certificatesDone, env`server, env`pauses
    ensures env.Since(moment)
    ensures outcome == Done || outcome == Killed
    ensures outcome == Done <==> db.certificatesDone
    ensures if old(db.certificatesDone) then db.certificatesDone && db.certificates == old(db.certificates)
            else db.certificates == if db.certificatesDone then CompleteExport(moment, snapshot).certificates
                                    else old(db.certificates)
    ensures old(NoKill(env.pauses)) ==> outcome == Done && NoKill(env.pauses)
    ensures old(!db.certificatesDone && KilledAtOnce(env.pauses)) ==>
              outcome == Killed && env.server == old(env.Answered()) && env.pauses == old(env.pauses)[1..]
  {
    hide NoKill, Extends, DatedSince, CompleteExport, DoBaseInfo, DoCertificates;
    if db.certificatesDone { return Done; }
    var killed := env.Await(moment);
    if killed { return Killed; }
    var certificates := DoCertificates(env.server, base);
    AnsweredCertificates(env, snapshot, moment);
    killed := env.Await(moment);
    if killed { return Killed; }
    db.certificates, db.certificatesDone := certificates, true;
    outcome := Done;
  }

  /** The blocks whose data a run that starts now has to fetch. */
  ghost function BlocksToFetch(db: OutputDb, moment: Server, snapshot: DateTime): Table
    reads db.blocks
  {
    if db.blocks.done then db.blocks.rows else CompleteExport(moment, snapshot).blocks
  }

  /** Nobody kills the exporter, and the task groups to come bring in the block data. */
  ghost predicate Cooperative(db: OutputDb, env: Environment, moment: Server, snapshot: DateTime)
    reads db, db.blocks, env
  {
    var rows := BlocksToFetch(db, moment, snapshot);
    NoKill(env.pauses) && DataCompletes(rows, db.blockData, BlockContent(rows, moment.blockstore), env.groups)
  }

  /** The four phases, on an open database. */
  method RunPhases(db: OutputDb, env: Environment, base: BaseInfo, ghost snapshot: DateTime, ghost moment: Server)
    returns (outcome: Outcome)
    requires env.Since(moment) && base == DoBaseInfo(moment, snapshot)
    requires db.Sound(moment, snapshot) && db.info.Some?
    modifies db, db.vlobs, db.blocks, env
    ensures env.Since(moment)
    ensures db.Sound(moment, snapshot) && db.info == old(db.info)
    ensures outcome == Done || outcome == Killed || outcome == BlockstoreError
    ensures Continues(old(db.Reached()), db.Reached(), CompleteExport(moment, snapshot))
    ensures outcome == Done ==> db.Finished() && ByKey(db.blockData) == BlockContent(db.blocks.rows, moment.blockstore)
    ensures old(Cooperative(db, env, moment, snapshot)) ==> outcome == Done
    ensures old(!db.certificatesDone && KilledAtOnce(env.pauses)) ==>
              && outcome == Killed && db.Reached() == old(db.Reached()) && db.blockData == old(db.blockData)
              && db.blocksDataDone == old(db.blocksDataDone) && env.server == old(env.Answered())
              && env.pauses == old(env.pauses)[1..] && env.groups == old(env.groups)
  {
    BoundsOfBase(moment, snapshot);
    hide Extends, DatedSince, CompleteExport, DoBaseInfo, NoKill, DataCompletes, UpperBound;
    hide UniqueKeys, BlockFetch.Genuine, NextMissing, BlockContent, ByKey;
    outcome := ExportCertificates(db, env, base, snapshot, moment);
    if outcome != Done { return; }
    var bytes: nat;
    outcome, bytes := CopyTable(db.vlobs, env, VlobAtoms, base.vlobBound, VLOB_EXPORT_BATCH_SIZE, snapshot, moment);
    if outcome != Done { return; }
    ghost var wereDone, before := db.blocks.done, db.blocks.rows;
    outcome, bytes := CopyTable(db.blocks, env, Blocks, base.blockBound, BLOCK_METADATA_EXPORT_BATCH_SIZE, snapshot,
      moment);
    if !wereDone { NothingToCheck(db.blocks.rows, moment.blockstore); }
    if outcome != Done { return; }
    outcome := ExportBlocksData(db, env, snapshot, moment);
  }

  lemma NothingToCheck(rows: Table, store: map<nat, Bytes>)
    ensures BlockFetch.Genuine([], BlockContent(rows, store)) && UniqueKeys([])
  {
  }

  lemma BoundsOfBase(s: Server, snapshot: DateTime)
    ensures DoBaseInfo(s, snapshot).vlobBound == UpperBound(s.Rows(VlobAtoms), snapshot)
    ensures DoBaseInfo(s, snapshot).blockBound == UpperBound(s.Rows(Blocks), snapshot)
    ensures CompleteExport(s, snapshot).info == DoBaseInfo(s, snapshot).info
  {
  }

  /** The database says it is of this realm and snapshot; its totals may still differ. */
  ghost predicate IsFor(info: Option<Info>, s: Server, snapshot: DateTime)
  {
    && info.Some? && info.value.organizationId == s.organizationId && info.value.realmId == s.realmId
    && info.value.snapshot == snapshot && info.value.rootVerifyKey == s.rootVerifyKey
  }

  /** Creates the database, or checks that an existing one is for the same realm, snapshot and totals. */
  method ConnectOrCreate(db: OutputDb, info: Info, ghost s: Server, ghost snapshot: DateTime) returns (connected: bool)
    requires IsFor(Some(info), s, snapshot)
    requires db.Empty() || db.info.Some?
    requires IsFor(db.info, s, snapshot) ==> db.Sound(s, snapshot)
    modifies db`info
    ensures connected <==> old(db.info) == None || old(db.info) == Some(info)
    ensures connected ==> db.Sound(s, snapshot) && db.info == Some(info)
    ensures !connected ==> db.info == old(db.info)
  {
    hide CompleteExport, BlockContent;
    if db.info.None? {
      NothingToCheck(db.blocks.rows, s.blockstore);
      db.info := Some(info);
    }
    connected := db.info.value == info;
  }

  predicate IsRefusal(outcome: Outcome)
  {
    outcome in {SnapshotTooRecent, RealmDidntExist, NoCommonCertificate, OutputDbMismatch}
  }

  lemma BaseIsFor(s: Server, t: Server, info: Option<Info>, snapshot: DateTime)
    requires Extends(s, t)
    ensures IsFor(Some(DoBaseInfo(t, snapshot).info), t, snapshot)
    ensures IsFor(info, t, snapshot) <==> IsFor(info, s, snapshot)
  {
  }

  lemma ContinuesReflexive(phases: Phases)
    ensures forall target: Export :: Continues(phases, phases, target)
  {
  }

  /** A run once the base information was answered: opens the database and goes through the phases. */
  method ConnectAndRun(db: OutputDb, env: Environment, base: BaseInfo, ghost snapshot: DateTime, ghost moment: Server)
    returns (outcome: Outcome)
    requires env.Since(moment) && base == DoBaseInfo(moment, snapshot)
    requires db.Empty() || db.info.Some?
    requires IsFor(db.info, moment, snapshot) ==> db.Sound(moment, snapshot)
    modifies db, db.vlobs, db.blocks, env
    ensures env.Since(moment)
    ensures outcome in {Done, Killed, BlockstoreError, OutputDbMismatch}
    ensures outcome == OutputDbMismatch <==> old(db.info).Some? && old(db.info).value != base.info
    ensures outcome == OutputDbMismatch ==> unchanged(db, db.vlobs, db.blocks)
    ensures db.info == old(db.info) || (old(db.Empty()) && db.info == Some(base.info))
    ensures db.info.Some? && (outcome != OutputDbMismatch ==> db.info == Some(base.info))
    ensures IsFor(db.info, env.server, snapshot) ==> db.Sound(env.server, snapshot)
    ensures Continues(old(db.Reached()), db.Reached(), CompleteExport(moment, snapshot))
    ensures outcome == Done ==> db.Finished() && ByKey(db.blockData) == BlockContent(db.blocks.rows, moment.blockstore)
    ensures outcome == Done ==> IsFor(db.info, env.server, snapshot)
    ensures outcome != OutputDbMismatch && old(Cooperative(db, env, moment, snapshot)) ==> outcome == Done
    ensures outcome != OutputDbMismatch && old(!db.certificatesDone && KilledAtOnce(env.pauses)) ==>
              && outcome == Killed && db.Reached() == old(db.Reached()) && db.blockData == old(db.blockData)
              && env.server == old(env.Answered())
              && env.pauses == old(env.pauses)[1..] && env.groups == old(env.groups)
  {
    hide Extends, DatedSince, CompleteExport, DoBaseInfo, NoKill, DataCompletes, IsFor;
    hide UniqueKeys, BlockFetch.Genuine, NextMissing, BlockContent, ByKey, AcceptAll, Continues;
    ContinuesReflexive(db.Reached());
    BaseIsFor(moment, env.server, db.info, snapshot);
    BaseIsForItself(moment, snapshot);
    var connected := ConnectOrCreate(db, base.info, moment, snapshot);
    if !connected {
      if IsFor(db.info, moment, snapshot) { SoundLater(db, moment, env.server, snapshot); }
      return OutputDbMismatch;
    }
    outcome := RunPhases(db, env, base, snapshot, moment);
    SoundLater(db, moment, env.server, snapshot);
    BaseIsFor(moment, env.server, db.info, snapshot);
  }

  lemma BaseIsForItself(s: Server, snapshot: DateTime)
    ensures IsFor(Some(DoBaseInfo(s, snapshot).info), s, snapshot)
  {
  }

  /** One run of `realm_export`; `moment` is the server when it answers the base information. On a new
      database, or on one left by an interrupted run for the same realm and snapshot, the run finishes,
      is refused, or stops with a database that a later run can resume; unless it is refused, the
      exporter is killed or a task group fails, it finishes. */
  method ExportRealm(db: OutputDb, env: Environment, snapshot: DateTime)
    returns (outcome: Outcome, ghost moment: Server)
    requires env.Valid()
    requires db.Empty() || db.info.Some?
    requires IsFor(db.info, env.server, snapshot) ==> db.Sound(env.server, snapshot)
    modifies db, db.vlobs, db.blocks, env
    ensures moment == if outcome == SnapshotTooRecent then old(env.server) else old(env.Answered())
    ensures Later(moment, old(env.server), env.delay) && env.Since(moment) && env.Since(old(env.server))
    // which outcome
    ensures outcome == SnapshotTooRecent <==> EarliestAllowedSnapshotTimestamp(old(env.server).clock) < snapshot
    ensures outcome != SnapshotTooRecent && old(KilledAtOnce(env.pauses)) ==> outcome == Killed
    ensures outcome == RealmDidntExist <==>
              && snapshot <= EarliestAllowedSnapshotTimestamp(old(env.server).clock) && !old(KilledAtOnce(env.pauses))
              && DoBaseInfo(moment, snapshot).realmBound.None?
    ensures outcome == NoCommonCertificate <==>
              && snapshot <= EarliestAllowedSnapshotTimestamp(old(env.server).clock) && !old(KilledAtOnce(env.pauses))
              && DoBaseInfo(moment, snapshot).realmBound.Some? && DoBaseInfo(moment, snapshot).commonBound.None?
    ensures outcome == OutputDbMismatch <==>
              && snapshot <= EarliestAllowedSnapshotTimestamp(old(env.server).clock) && !old(KilledAtOnce(env.pauses))
              && DoBaseInfo(moment, snapshot).realmBound.Some? && DoBaseInfo(moment, snapshot).commonBound.Some?
              && old(db.info).Some? && old(db.info).value != DoBaseInfo(moment, snapshot).info
    ensures !IsRefusal(outcome) && old(Cooperative(db, env, env.Answered(), snapshot)) ==> outcome == Done
    // what it leaves
    ensures IsRefusal(outcome) ==> unchanged(db, db.vlobs, db.blocks)
    ensures db.Empty() || db.info.Some?
    ensures db.info == old(db.info) || (old(db.Empty()) && db.info == Some(DoBaseInfo(moment, snapshot).info))
    ensures IsFor(db.info, env.server, snapshot) ==> db.Sound(env.server, snapshot)
    ensures Continues(old(db.Reached()), db.Reached(), CompleteExport(moment, snapshot))
    ensures outcome == Done ==> db.Finished() && ByKey(db.blockData) == BlockContent(db.blocks.rows, moment.blockstore)
    ensures outcome == Done ==> IsFor(db.info, env.server, snapshot)
    ensures !IsRefusal(outcome) && old(!db.certificatesDone && |env.pauses| > 1 && !env.pauses[0].killed
            && env.pauses[1].killed) ==>
              && outcome == Killed && db.info == Some(DoBaseInfo(moment, snapshot).info)
              && db.Reached() == old(db.Reached()) && db.blockData == old(db.blockData)
              && env.server == AcceptAll(moment, old(env.pauses)[1].uploads)
              && env.pauses == old(env.pauses)[2..] && env.groups == old(env.groups)
  {
    hide Extends, DatedSince, CompleteExport, DoBaseInfo, NoKill, DataCompletes, IsFor;
    hide UniqueKeys, BlockFetch.Genuine, NextMissing, BlockContent, ByKey, AcceptAll, Continues;
    SinceNow(env);
    moment := env.server;
    ContinuesReflexive(db.Reached());
    if snapshot > EarliestAllowedSnapshotTimestamp(env.server.clock) { return SnapshotTooRecent, moment; }
    ghost var start := env.server;
    var killed := env.Await(start);
    moment := env.server;
    SinceNow(env);
    BaseIsFor(start, moment, db.info, snapshot);
    if IsFor(db.info, start, snapshot) { SoundLater(db, start, moment, snapshot); }
    if killed { return Killed, moment; }
    var base := DoBaseInfo(env.server, snapshot);
    if base.realmBound.None? { return RealmDidntExist, moment; }
    if base.commonBound.None? { return NoCommonCertificate, moment; }
    outcome := ConnectAndRun(db, env, base, snapshot, moment);
    LaterTransitive(env.server, moment, start, env.delay);
  }
}
