/** Exports that are killed and started again (server/parsec/realm_export.py): which file comes out. */
module ResumedExport {
  import opened Basics
  import opened Ballpark
  import opened SequentialRows
  import opened RealmServer
  import opened ExportTarget
  import opened RealmExport
  import opened Wrappers
  import BlockFetch

  /** The states of the server when the runs that created the database, wrote the certificates, and
      finished the two tables were answered. */
  datatype Moments = Moments(info: Server, certificates: Server, vlobs: Server, blocks: Server)

  ghost function FileOf(m: Moments, snapshot: DateTime): Export
  {
    Export(
      DoBaseInfo(m.info, snapshot).info,
      CompleteExport(m.certificates, snapshot).certificates,
      CompleteExport(m.vlobs, snapshot).vlobs,
      CompleteExport(m.blocks, snapshot).blocks,
      CompleteExport(m.blocks, snapshot).blockData)
  }

  /** The moments come after the start, and the first one is that of the database. */
  ghost predicate Ordered(m: Moments, start: Server, delay: Option<nat>)
  {
    && Later(m.info, start, delay)
    && Later(m.certificates, m.info, delay) && Later(m.vlobs, m.info, delay) && Later(m.blocks, m.info, delay)
  }

  ghost predicate Over(m: Moments, now: Server, delay: Option<nat>)
  {
    && Later(now, m.info, delay) && Later(now, m.certificates, delay)
    && Later(now, m.vlobs, delay) && Later(now, m.blocks, delay)
  }

  /** Something of the snapshot came after the start and before the run that would have to export it. */
  ghost predicate CameLate(start: Server, m: Moments, snapshot: DateTime)
  {
    || LateCertificate(start, m.certificates, snapshot)
    || LateRow(start.vlobs, m.vlobs.vlobs, snapshot)
    || LateRow(start.blocks, m.blocks.blocks, snapshot)
  }

  lemma LateRowStaysLate(a: Table, b: Table, c: Table, snapshot: DateTime)
    requires a <= b <= c && LateRow(a, b, snapshot)
    ensures LateRow(a, c, snapshot)
  {
    var i :| |a| <= i < |b| && b[i].createdOn <= snapshot;
    assert c[i] == b[i];
  }

  lemma VlobsOfStartIff(start: Server, t: Server, snapshot: DateTime, delay: Option<nat>)
    requires Later(t, start, delay)
    ensures CompleteExport(t, snapshot).vlobs == CompleteExport(start, snapshot).vlobs
       <==> !LateRow(start.vlobs, t.vlobs, snapshot)
  {
    hide CompleteExport, UpTo, UpperBound;
    PartsOfExport(start, snapshot);
    PartsOfExport(t, snapshot);
    SelectionStableIff(start.vlobs, t.vlobs, snapshot);
  }

  lemma BlocksOfStartIff(start: Server, t: Server, snapshot: DateTime, delay: Option<nat>)
    requires Later(t, start, delay)
    ensures CompleteExport(t, snapshot).blocks == CompleteExport(start, snapshot).blocks
       <==> !LateRow(start.blocks, t.blocks, snapshot)
    ensures !LateRow(start.blocks, t.blocks, snapshot) ==>
              CompleteExport(t, snapshot).blockData == CompleteExport(start, snapshot).blockData
  {
    hide CompleteExport, UpTo, UpperBound;
    PartsOfExport(start, snapshot);
    PartsOfExport(t, snapshot);
    SelectionStableIff(start.blocks, t.blocks, snapshot);
    if !LateRow(start.blocks, t.blocks, snapshot) { SameBlocksSameData(start, t, snapshot); }
  }

  lemma InfoOfStart(start: Server, m: Moments, snapshot: DateTime, delay: Option<nat>)
    requires Ordered(m, start, delay)
    requires !LateRow(start.vlobs, m.vlobs.vlobs, snapshot) && !LateRow(start.blocks, m.blocks.blocks, snapshot)
    ensures DoBaseInfo(m.info, snapshot).info == DoBaseInfo(start, snapshot).info
  {
    if LateRow(start.vlobs, m.info.vlobs, snapshot) {
      LateRowStaysLate(start.vlobs, m.info.vlobs, m.vlobs.vlobs, snapshot);
    }
    if LateRow(start.blocks, m.info.blocks, snapshot) {
      LateRowStaysLate(start.blocks, m.info.blocks, m.blocks.blocks, snapshot);
    }
    SameRowsSameInfo(start, m.info, snapshot);
  }

  /** The file of any number of runs is the one-shot export of the start exactly when nothing of the
      snapshot came late. */
  lemma FileOfStartIff(start: Server, m: Moments, snapshot: DateTime, delay: Option<nat>)
    requires Ordered(m, start, delay)
    ensures FileOf(m, snapshot) == CompleteExport(start, snapshot) <==> !CameLate(start, m, snapshot)
  {
    hide CompleteExport, DoBaseInfo, LateRow, LateCertificate, Later;
    OrderedSinceStart(start, m, delay);
    CertificatesOfStartIff(start, m.certificates, snapshot, delay);
    VlobsOfStartIff(start, m.vlobs, snapshot, delay);
    BlocksOfStartIff(start, m.blocks, snapshot, delay);
    PartsOfExport(start, snapshot);
    if !CameLate(start, m, snapshot) { InfoOfStart(start, m, snapshot, delay); }
  }

  lemma CertificatesOfStartIff(start: Server, t: Server, snapshot: DateTime, delay: Option<nat>)
    requires Later(t, start, delay)
    ensures CompleteExport(t, snapshot).certificates == CompleteExport(start, snapshot).certificates
       <==> !LateCertificate(start, t, snapshot)
  {
    hide CompleteExport, LateCertificate;
    CertificatesStableUnlessLate(start, t, snapshot);
  }

  lemma OrderedSinceStart(start: Server, m: Moments, delay: Option<nat>)
    requires Ordered(m, start, delay)
    ensures Later(m.certificates, start, delay) && Later(m.vlobs, start, delay) && Later(m.blocks, start, delay)
  {
    hide Later;
    LaterTransitive(m.certificates, m.info, start, delay);
    LaterTransitive(m.vlobs, m.info, start, delay);
    LaterTransitive(m.blocks, m.info, start, delay);
  }

  // ---------- one run after another ----------

  /** What is done is what the server had at its moment. */
  ghost predicate Holds(m: Moments, now: Phases, snapshot: DateTime)
  {
    && (now.certificatesDone ==> now.certificates == CompleteExport(m.certificates, snapshot).certificates)
    && (now.vlobsDone ==> now.vlobs == CompleteExport(m.vlobs, snapshot).vlobs)
    && (now.blocksDone ==> now.blocks == CompleteExport(m.blocks, snapshot).blocks)
  }

  /** Phases that were not done before a run are done at the moment of that run, or later. */
  ghost function Update(m: Moments, was: Phases, wasEmpty: bool, moment: Server): Moments
  {
    Moments(
      if wasEmpty then moment else m.info,
      if was.certificatesDone then m.certificates else moment,
      if was.vlobsDone then m.vlobs else moment,
      if was.blocksDone then m.blocks else moment)
  }

  lemma UpdateKeepsOrder(start: Server, m: Moments, was: Phases, wasEmpty: bool, before: Server, moment: Server,
                         now: Server, delay: Option<nat>)
    requires Ordered(m, start, delay) && Over(m, before, delay) && Later(moment, before, delay)
             && Later(now, moment, delay)
    requires wasEmpty ==> !was.certificatesDone && !was.vlobsDone && !was.blocksDone
    ensures Ordered(Update(m, was, wasEmpty, moment), start, delay)
            && Over(Update(m, was, wasEmpty, moment), now, delay)
  {
    hide Later;
    LaterTransitive(moment, before, m.info, delay);
    LaterTransitive(moment, m.info, start, delay);
    LaterTransitive(now, moment, before, delay);
    LaterTransitive(now, before, m.info, delay);
    LaterTransitive(now, before, m.certificates, delay);
    LaterTransitive(now, before, m.vlobs, delay);
    LaterTransitive(now, before, m.blocks, delay);
    LaterReflexive(moment, before, delay);
  }

  lemma LaterReflexive(t: Server, s: Server, delay: Option<nat>)
    requires Later(t, s, delay)
    ensures Later(t, t, delay) && Later(s, s, delay)
  {
    ExtendsReflexive(t);
    ExtendsReflexive(s);
    if delay.Some? {
      DatedReflexive(t, delay.value);
      DatedReflexive(s, delay.value);
    }
  }

  lemma FinishedIsFile(db: OutputDb, m: Moments, moment: Server, snapshot: DateTime, delay: Option<nat>)
    requires db.Finished() && Holds(m, db.Reached(), snapshot) && Later(moment, m.blocks, delay)
    requires db.info == Some(DoBaseInfo(m.info, snapshot).info)
    requires ByKey(db.blockData) == BlockContent(db.blocks.rows, moment.blockstore)
    ensures db.Contents() == FileOf(m, snapshot)
  {
    hide CompleteExport, ByKey, BlockContent, DoBaseInfo;
    var rows := db.blocks.rows;
    PartsOfExport(m.blocks, snapshot);
    BlocksOfExportAreStored(m.blocks, snapshot, rows);
    BlockContentStable(rows, m.blocks.blockstore, moment.blockstore);
  }

  /** A late row that is not empty came after the database was created. */
  ghost predicate TotalsChanged(s: Server, t: Server, snapshot: DateTime)
  {
    HeavyRow(s.vlobs, t.vlobs, snapshot) || HeavyRow(s.blocks, t.blocks, snapshot)
  }

  lemma MismatchMeansHeavy(info: Server, moment: Server, now: Server, snapshot: DateTime, delay: Option<nat>)
    requires Later(moment, info, delay) && Later(now, moment, delay)
    requires DoBaseInfo(moment, snapshot).info != DoBaseInfo(info, snapshot).info
    ensures TotalsChanged(info, now, snapshot)
  {
    InfoStableIff(info, moment, snapshot);
    if HeavyRow(info.vlobs, moment.vlobs, snapshot) {
      HeavyStaysHeavy(info.vlobs, moment.vlobs, now.vlobs, snapshot);
    } else {
      HeavyStaysHeavy(info.blocks, moment.blocks, now.blocks, snapshot);
    }
  }

  lemma HeavyStaysHeavy(a: Table, b: Table, c: Table, snapshot: DateTime)
    requires a <= b <= c && HeavyRow(a, b, snapshot)
    ensures HeavyRow(a, c, snapshot)
  {
    var i :| |a| <= i < |b| && b[i].createdOn <= snapshot && b[i].size > 0;
    assert c[i] == b[i];
  }

  lemma HoldsAfter(m: Moments, was: Phases, wasEmpty: bool, moment: Server, now: Phases, snapshot: DateTime)
    requires Holds(m, was, snapshot) && Continues(was, now, CompleteExport(moment, snapshot))
    ensures Holds(Update(m, was, wasEmpty, moment), now, snapshot)
  {
    hide CompleteExport;
  }

  lemma InfoIsFor(s: Server, t: Server, snapshot: DateTime, delay: Option<nat>)
    requires Later(t, s, delay)
    ensures IsFor(Some(DoBaseInfo(s, snapshot).info), t, snapshot)
  {
  }

  lemma SinceIsLater(env: Environment, moment: Server)
    requires env.Since(moment)
    ensures Later(env.server, moment, env.delay)
  {
  }

  /** Everything known between two runs. */
  ghost predicate Between(db: OutputDb, env: Environment, start: Server, m: Moments, snapshot: DateTime)
    reads db, db.vlobs, db.blocks, env
  {
    && env.Valid() && Ordered(m, start, env.delay) && Over(m, env.server, env.delay)
    && (db.Empty() || (db.info == Some(DoBaseInfo(m.info, snapshot).info) && db.Sound(env.server, snapshot)))
    && Holds(m, db.Reached(), snapshot)
  }

  /** One more run on a database that earlier ones left. */
  method RunAgain(db: OutputDb, env: Environment, snapshot: DateTime, ghost start: Server, ghost was: Moments)
    returns (outcome: Outcome, ghost m: Moments)
    requires Between(db, env, start, was, snapshot)
    modifies db, db.vlobs, db.blocks, env
    ensures Between(db, env, start, m, snapshot)
    ensures outcome == Done ==> db.info.Some? && db.Contents() == FileOf(m, snapshot)
    ensures outcome == OutputDbMismatch ==> TotalsChanged(m.info, env.server, snapshot)
    ensures var base := DoBaseInfo(old(env.Answered()), snapshot);
            && old(db.Empty() && Cooperative(db, env, env.Answered(), snapshot))
            && snapshot <= EarliestAllowedSnapshotTimestamp(old(env.server).clock)
            && base.realmBound.Some? && base.commonBound.Some?
            ==> outcome == Done
  {
    hide CompleteExport, DoBaseInfo, Later, UniqueKeys, BlockFetch.Genuine, BlockContent, ByKey, NextMissing;
    hide DataCompletes, NoKill, TotalsChanged, Extends, DatedSince, Continues, Holds;
    ghost var before, empty, reached := env.server, db.Empty(), db.Reached();
    InfoIsFor(was.info, before, snapshot, env.delay);
    ghost var moment;
    outcome, moment := ExportRealm(db, env, snapshot);
    SinceIsLater(env, moment);
    LaterTransitive(moment, before, was.info, env.delay);
    LaterTransitive(moment, before, was.blocks, env.delay);
    LaterReflexive(moment, before, env.delay);
    UpdateKeepsOrder(start, was, reached, empty, before, moment, env.server, env.delay);
    m := Update(was, reached, empty, moment);
    HoldsAfter(was, reached, empty, moment, db.Reached(), snapshot);
    InfoIsFor(m.info, env.server, snapshot, env.delay);
    if outcome == Done { FinishedIsFile(db, m, moment, snapshot, env.delay); }
    if outcome == OutputDbMismatch { MismatchMeansHeavy(m.info, moment, env.server, snapshot, env.delay); }
  }

  /** Any number of runs, with uploads before and during each of them, on a database that is new at the
      start. What comes out, if the last run finishes, is the one-shot export of the start unless
      something of the snapshot came late; and that can be told beforehand. A run is refused for its
      totals only after a late row. */
  method ExportUntilDone(db: OutputDb, env: Environment, snapshot: DateTime, attempts: nat)
    returns (outcome: Outcome, ghost m: Moments)
    requires env.Valid() && db.Empty()
    modifies db, db.vlobs, db.blocks, env
    ensures env.Valid() && Ordered(m, old(env.server), env.delay) && Over(m, env.server, env.delay)
    ensures db.Empty() || (db.info == Some(DoBaseInfo(m.info, snapshot).info) && db.Sound(env.server, snapshot))
    ensures outcome == Done ==> db.info.Some? && db.Contents() == FileOf(m, snapshot)
    ensures outcome == Done ==>
              (db.Contents() == CompleteExport(old(env.server), snapshot) <==> !CameLate(old(env.server), m, snapshot))
    ensures outcome == OutputDbMismatch ==> TotalsChanged(m.info, env.server, snapshot)
    ensures env.delay.Some? && HasTopic(old(env.server).certificates, Common)
            && !CanStillChange(old(env.server), snapshot, env.delay.value) ==>
              && (outcome == Done ==> db.Contents() == CompleteExport(old(env.server), snapshot))
              && outcome != OutputDbMismatch
    ensures var base := DoBaseInfo(old(env.Answered()), snapshot);
            && attempts > 0 && old(Cooperative(db, env, env.Answered(), snapshot))
            && snapshot <= EarliestAllowedSnapshotTimestamp(old(env.server).clock)
            && base.realmBound.Some? && base.commonBound.Some?
            ==> outcome == Done
  {
    hide CompleteExport, DoBaseInfo, Later, Cooperative, TotalsChanged, CameLate, FileOf, CanStillChange, Holds;
    ghost var start := env.server;
    SinceNow(env);
    SinceIsLater(env, start);
    outcome, m := Killed, Moments(start, start, start, start);
    NothingHolds(m, snapshot);
    var attempt := 0;
    while attempt < attempts && outcome != Done
      invariant Between(db, env, start, m, snapshot)
      invariant outcome == Done ==> db.info.Some? && db.Contents() == FileOf(m, snapshot)
      invariant outcome == OutputDbMismatch ==> TotalsChanged(m.info, env.server, snapshot)
      invariant attempt == 0 ==> unchanged(db, db.vlobs, db.blocks, env)
      invariant && attempt > 0 && old(Cooperative(db, env, env.Answered(), snapshot))
                && snapshot <= EarliestAllowedSnapshotTimestamp(start.clock)
                && DoBaseInfo(old(env.Answered()), snapshot).realmBound.Some?
                && DoBaseInfo(old(env.Answered()), snapshot).commonBound.Some?
                ==> outcome == Done
    {
      outcome, m := RunAgain(db, env, snapshot, start, m);
      attempt := attempt + 1;
    }
    FileOfStartIff(start, m, snapshot, env.delay);
    if env.delay.Some? && HasTopic(start.certificates, Common) && !CanStillChange(start, snapshot, env.delay.value) {
      NothingCameLate(start, m, env.server, snapshot, env.delay);
    }
  }

  lemma NothingHolds(m: Moments, snapshot: DateTime)
    ensures Holds(m, Phases(NoCertificates, false, [], false, [], false), snapshot)
  {
  }

  lemma NothingCameLate(start: Server, m: Moments, now: Server, snapshot: DateTime, delay: Option<nat>)
    requires Ordered(m, start, delay) && Over(m, now, delay) && HasTopic(start.certificates, Common)
    requires delay.Some? && !CanStillChange(start, snapshot, delay.value)
    ensures !CameLate(start, m, snapshot) && !TotalsChanged(m.info, now, snapshot)
  {
    hide LateRow, LateCertificate, HeavyRow, CanStillChange, Extends, DatedSince;
    OrderedSinceStart(start, m, delay);
    LaterTransitive(now, m.info, start, delay);
    NoLateItem(start, m.certificates, snapshot, delay.value);
    NoLateItem(start, m.vlobs, snapshot, delay.value);
    NoLateItem(start, m.blocks, snapshot, delay.value);
    NoLateItem(start, now, snapshot, delay.value);
    NoLateNoHeavy(start, m.info, now, snapshot, delay);
  }

  lemma NoLateNoHeavy(start: Server, info: Server, now: Server, snapshot: DateTime, delay: Option<nat>)
    requires Later(info, start, delay) && Later(now, info, delay)
    requires !LateRow(start.vlobs, now.vlobs, snapshot) && !LateRow(start.blocks, now.blocks, snapshot)
    ensures !TotalsChanged(info, now, snapshot)
  {
    assert |start.vlobs| <= |info.vlobs| && |start.blocks| <= |info.blocks|;
  }

  // ---------- a run that is killed, and what comes in before the next ----------

  /** A run that creates the database and is killed when it asks for the certificates; one upload comes
      in before the next run is answered. */
  method KilledRun(s: Server, snapshot: DateTime, upload: Upload, groups: seq<seq<BlockFetch.Event>>)
    returns (db: OutputDb, env: Environment, outcome: Outcome)
    requires s.Valid() && snapshot <= EarliestAllowedSnapshotTimestamp(s.clock)
    requires DoBaseInfo(s, snapshot).realmBound.Some? && DoBaseInfo(s, snapshot).commonBound.Some?
    ensures fresh(db) && fresh(db.vlobs) && fresh(db.blocks) && fresh(env) && env.Valid() && outcome == Killed
    ensures env.server == s && env.pauses == [Pause([upload], false)] && env.groups == groups && env.delay == None
    ensures db.info == Some(DoBaseInfo(s, snapshot).info) && db.Sound(s, snapshot) && IsFor(db.info, s, snapshot)
    ensures db.Reached() == Phases(NoCertificates, false, [], false, [], false) && db.blockData == []
  {
    hide CompleteExport, DoBaseInfo, DataCompletes, Later, BlockContent, ByKey, Continues;
    db := new OutputDb();
    env := new Environment(s, [Pause([], false), Pause([], true), Pause([upload], false)], groups, None);
    ghost var moment;
    assert env.Answered() == s;
    outcome, moment := ExportRealm(db, env, snapshot);
    BaseIsForItself(s, snapshot);
  }

  /** A sequester certificate of the snapshot is handed in after a run created the database and was
      killed. The next run finishes, and the file is not the one the first would have given. */
  method ResumeAfterLateCertificate(s: Server, snapshot: DateTime, groups: seq<seq<BlockFetch.Event>>)
    returns (db: OutputDb, killed: Outcome, finished: Outcome)
    requires s.Valid() && snapshot <= EarliestAllowedSnapshotTimestamp(s.clock)
    requires DoBaseInfo(s, snapshot).realmBound.Some? && DoBaseInfo(s, snapshot).commonBound.Some?
    requires IsGreater(s.certificates, Sequester, snapshot)
    requires var target := CompleteExport(s, snapshot); DataCompletes(target.blocks, [], target.blockData, groups)
    ensures killed == Killed && finished == Done
    ensures db.info.Some? && db.Contents() != CompleteExport(s, snapshot)
  {
    hide CompleteExport, DoBaseInfo, DataCompletes, Later, IsGreater, BlockContent, ByKey, CameLate;
    hide UniqueKeys, BlockFetch.Genuine, LateCertificate, IsFor, NextMissing, Cooperative, Extends, AcceptAll;
    var upload := LateSequesterUpload(s, snapshot);
    var env;
    db, env, killed := KilledRun(s, snapshot, upload, groups);
    NextRunCanFinish(db, env, s, snapshot);
    ghost var moment;
    finished, moment := ExportRealm(db, env, snapshot);
    DiffersInCertificates(s, moment, snapshot);
  }

  function LateSequesterUpload(s: Server, snapshot: DateTime): Upload
  {
    UploadCertificate(s.clock, s.clock, Certificate(Sequester, snapshot, []), [])
  }

  lemma NextRunCanFinish(db: OutputDb, env: Environment, s: Server, snapshot: DateTime)
    requires s.Valid() && IsGreater(s.certificates, Sequester, snapshot)
    requires env.server == s && env.pauses == [Pause([LateSequesterUpload(s, snapshot)], false)]
    requires !db.blocks.done && db.blockData == []
    requires var target := CompleteExport(s, snapshot); DataCompletes(target.blocks, [], target.blockData, env.groups)
    ensures var t := env.Answered();
            && Extends(s, t) && LateCertificate(s, t, snapshot) && Cooperative(db, env, t, snapshot)
            && DoBaseInfo(t, snapshot).info == DoBaseInfo(s, snapshot).info
            && DoBaseInfo(t, snapshot).realmBound == DoBaseInfo(s, snapshot).realmBound
            && DoBaseInfo(t, snapshot).commonBound == DoBaseInfo(s, snapshot).commonBound
  {
    hide CompleteExport, DoBaseInfo, DataCompletes, IsGreater, BlockContent, LateCertificate, Extends, Accept;
    var upload := LateSequester(s, snapshot);
    AcceptAllExtends(s, [upload]);
    SameRowsAfterCertificate(s, upload.certificate, snapshot);
    PartsOfExport(env.Answered(), snapshot);
  }

  lemma SameRowsAfterCertificate(s: Server, certificate: Certificate, snapshot: DateTime)
    requires certificate.topic == Sequester
    ensures var t := s.(certificates := s.certificates + [certificate]);
            && DoBaseInfo(t, snapshot).info == DoBaseInfo(s, snapshot).info
            && DoBaseInfo(t, snapshot).realmBound == DoBaseInfo(s, snapshot).realmBound
            && DoBaseInfo(t, snapshot).commonBound == DoBaseInfo(s, snapshot).commonBound
            && CompleteExport(t, snapshot).blocks == CompleteExport(s, snapshot).blocks
            && CompleteExport(t, snapshot).blockData == CompleteExport(s, snapshot).blockData
  {
    hide CertificatesUpTo, UpTo, UpperBound, AtSnapshot, BlockContent;
    CertificatesStableIff(s.certificates, s.certificates + [certificate], Realm, snapshot);
    CertificatesStableIff(s.certificates, s.certificates + [certificate], Common, snapshot);
  }

  lemma DiffersInCertificates(s: Server, t: Server, snapshot: DateTime)
    requires Extends(s, t) && LateCertificate(s, t, snapshot)
    ensures CompleteExport(t, snapshot).certificates != CompleteExport(s, snapshot).certificates
  {
    CertificatesStableUnlessLate(s, t, snapshot);
  }

  /** A block whose upload was under way when a run created the database and was killed is inserted
      afterwards. The next run is refused, although the database is of the same realm and snapshot. */
  method ResumeAfterLateBlock(s: Server, snapshot: DateTime, blockId: nat)
    returns (db: OutputDb, killed: Outcome, refused: Outcome)
    requires s.Valid() && snapshot <= EarliestAllowedSnapshotTimestamp(s.clock) && blockId !in s.blockstore
    requires DoBaseInfo(s, snapshot).realmBound.Some? && DoBaseInfo(s, snapshot).commonBound.Some?
    ensures killed == Killed && refused == OutputDbMismatch && IsFor(db.info, s, snapshot)
  {
    hide CompleteExport, DoBaseInfo, DataCompletes, Later, BlockContent, ByKey;
    var upload := UploadBlock(s.clock, snapshot, MaxId(s.blocks) + 1, Block(blockId, 1, 0), [0]);
    SlowBlockIsLate(s, snapshot, upload);
    var env;
    db, env, killed := KilledRun(s, snapshot, upload, []);
    ghost var moment;
    refused, moment := ExportRealm(db, env, snapshot);
  }

  lemma SlowBlockIsLate(s: Server, snapshot: DateTime, upload: Upload)
    requires snapshot <= s.clock && HasRealmBound(s, snapshot) && upload.UploadBlock? && upload.now == s.clock
    requires upload.receivedOn == snapshot && upload.sequentialId == MaxId(s.blocks) + 1 && upload.data == [0]
    requires upload.block.Block? && upload.block.blockId !in s.blockstore
    ensures var t := AcceptAll(s, [upload]);
            && DoBaseInfo(t, snapshot).info != DoBaseInfo(s, snapshot).info
            && DoBaseInfo(t, snapshot).realmBound == DoBaseInfo(s, snapshot).realmBound
            && DoBaseInfo(t, snapshot).commonBound == DoBaseInfo(s, snapshot).commonBound
  {
    BoundIsReal(s.certificates, Realm, snapshot);
    AcceptOne(s, upload);
    var t := Accept(s, upload);
    var row := Row(upload.sequentialId, snapshot, 1, upload.block);
    assert t.blocks == s.blocks + [row] && t.certificates == s.certificates && t.vlobs == s.vlobs;
    assert t.blocks[|s.blocks|] == row;
    assert HeavyRow(s.blocks, t.blocks, snapshot);
    TotalGrowsIff(s.blocks, t.blocks, snapshot);
  }

  predicate HasRealmBound(s: Server, snapshot: DateTime) { DoBaseInfo(s, snapshot).realmBound.Some? }
}
