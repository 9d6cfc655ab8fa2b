/** What an export of a realm has to hold (server/parsec/realm_export.py, with the queries of
    server/parsec/components/postgresql/realm_export_do_*.py), and how that changes while clients keep
    uploading. */
module ExportTarget {
  import opened Basics
  import opened Ballpark
  import opened SequentialRows
  import opened RealmServer
  import opened Wrappers

  /** The row that says what a database is an export of. */
  datatype Info = Info(
    organizationId: string,
    realmId: nat,
    snapshot: DateTime,
    rootVerifyKey: Bytes,
    vlobsTotalBytes: nat,
    blocksTotalBytes: nat)

  /** What the server answers before an export starts. */
  datatype BaseInfo = BaseInfo(
    info: Info,
    vlobBound: nat,
    blockBound: nat,
    commonBound: Option<DateTime>,
    realmBound: Option<DateTime>,
    sequesterBound: Option<DateTime>)

  function DoBaseInfo(s: Server, snapshot: DateTime): BaseInfo
  {
    BaseInfo(
      Info(
        s.organizationId, s.realmId, snapshot, s.rootVerifyKey,
        SumSizes(AtSnapshot(s.vlobs, snapshot)), SumSizes(AtSnapshot(s.blocks, snapshot))),
      UpperBound(s.vlobs, snapshot),
      UpperBound(s.blocks, snapshot),
      CertificateBound(s.certificates, Common, snapshot),
      CertificateBound(s.certificates, Realm, snapshot),
      CertificateBound(s.certificates, Sequester, snapshot))
  }

  /** The six tables that are written together. */
  datatype Certificates = Certificates(
    common: seq<Certificate>,
    realm: seq<Certificate>,
    sequester: seq<Certificate>,
    keysBundles: seq<Certificate>,
    userAccesses: seq<Certificate>,
    sequesterAccesses: seq<Certificate>)

  const NoCertificates: Certificates := Certificates([], [], [], [], [], [])

  /** Key material is selected by the bound of the realm's certificates. */
  function DoCertificates(s: Server, base: BaseInfo): Certificates
  {
    Certificates(
      CertificatesWithin(s.certificates, Common, base.commonBound),
      CertificatesWithin(s.certificates, Realm, base.realmBound),
      CertificatesWithin(s.certificates, Sequester, base.sequesterBound),
      CertificatesWithin(s.certificates, KeysBundle, base.realmBound),
      CertificatesWithin(s.certificates, UserAccess, base.realmBound),
      CertificatesWithin(s.certificates, SequesterAccess, base.realmBound))
  }

  /** The data the blockstore holds for each row of a block table. */
  function BlockContent(rows: Table, blockstore: map<nat, Bytes>): map<nat, Bytes>
  {
    if rows == [] then map[]
    else
      var last := rows[|rows| - 1];
      var content := BlockContent(rows[..|rows| - 1], blockstore);
      if last.payload.Block? && last.payload.blockId in blockstore
      then content[last.sequentialId := blockstore[last.payload.blockId]] else content
  }

  datatype Export = Export(
    info: Info,
    certificates: Certificates,
    vlobs: Table,
    blocks: Table,
    blockData: map<nat, Bytes>)
  {
    function Rows(kind: Kind): Table { if kind == VlobAtoms then vlobs else blocks }
  }

  /** The one-shot export: the certificates of the snapshot, every vlob and block up to the bound,
      and every block's data. */
  function CompleteExport(s: Server, snapshot: DateTime): Export
  {
    var base := DoBaseInfo(s, snapshot);
    var blocks := UpTo(s.blocks, base.blockBound);
    Export(
      base.info, DoCertificates(s, base), UpTo(s.vlobs, base.vlobBound), blocks, BlockContent(blocks, s.blockstore))
  }

  // ---------- rows ----------

  /** Rows up to an existing id stay what they are, whatever is added. */
  lemma SelectionIsKept(rows: Table, grown: Table, snapshot: DateTime)
    requires Ascending(grown) && rows <= grown
    ensures UpTo(grown, UpperBound(rows, snapshot)) == UpTo(rows, UpperBound(rows, snapshot))
  {
    var more := grown[|rows|..];
    assert grown == rows + more;
    UpperBoundIsReal(rows, snapshot);
    AppendKeepsCopy(rows, more, UpperBound(rows, snapshot));
  }

  lemma SelectionIsPrefix(source: Table, marker: nat, bound: nat)
    requires Ascending(source) && marker <= bound
    ensures UpTo(source, marker) <= UpTo(source, bound)
  {
    var m := AscendingSplits(source, marker);
    var n := AscendingSplits(source, bound);
  }

  lemma PrefixIsAscending(rows: Table, grown: Table)
    requires Ascending(grown) && rows <= grown
    ensures Ascending(rows)
  {
    AscendingSlice(grown, 0, |rows|);
    assert grown[0..|rows|] == rows;
  }

  lemma UpperBoundDominates(rows: Table, snapshot: DateTime, i: nat)
    requires i < |rows| && rows[i].createdOn <= snapshot
    ensures rows[i].sequentialId <= UpperBound(rows, snapshot)
  {
    SnapshotRowHasId(rows, snapshot, i);
    MaxIdIsPresent(AtSnapshot(rows, snapshot));
  }

  lemma UpperBoundGrows(rows: Table, grown: Table, snapshot: DateTime)
    requires rows <= grown
    ensures UpperBound(rows, snapshot) <= UpperBound(grown, snapshot)
  {
    MaxIdIsPresent(AtSnapshot(rows, snapshot));
    var bound := UpperBound(rows, snapshot);
    if bound != 0 {
      var i := SnapshotIdIsDated(rows, snapshot, bound);
      assert grown[i] == rows[i];
      UpperBoundDominates(grown, snapshot, i);
    }
  }

  /** What has to be exported only grows. */
  lemma SelectionGrows(rows: Table, grown: Table, snapshot: DateTime)
    requires Ascending(grown) && rows <= grown
    ensures UpTo(rows, UpperBound(rows, snapshot)) <= UpTo(grown, UpperBound(grown, snapshot))
  {
    hide UpTo, UpperBound;
    UpperBoundGrows(rows, grown, snapshot);
    SelectionIsKept(rows, grown, snapshot);
    SelectionIsPrefix(grown, UpperBound(rows, snapshot), UpperBound(grown, snapshot));
  }

  /** And grows exactly when a late row comes. */
  lemma SelectionStableIff(rows: Table, grown: Table, snapshot: DateTime)
    requires Ascending(grown) && rows <= grown
    ensures UpTo(grown, UpperBound(grown, snapshot)) == UpTo(rows, UpperBound(rows, snapshot))
       <==> !LateRow(rows, grown, snapshot)
  {
    hide UpTo;
    RowsStableIff(rows, grown, snapshot);
    SelectionIsKept(rows, grown, snapshot);
    if LateRow(rows, grown, snapshot) {
      var i :| |rows| <= i < |grown| && grown[i].createdOn <= snapshot;
      UpperBoundDominates(grown, snapshot, i);
      LateRowIsSelected(rows, grown, UpperBound(rows, snapshot), UpperBound(grown, snapshot), i);
    }
  }

  lemma LateRowIsSelected(rows: Table, grown: Table, marker: nat, bound: nat, i: nat)
    requires Ascending(grown) && rows <= grown && |rows| <= i < |grown| && grown[i].sequentialId <= bound
    ensures UpTo(grown, bound) != UpTo(rows, marker)
  {
    PrefixIsAscending(rows, grown);
    var m := AscendingSplits(rows, marker);
    var n := AscendingSplits(grown, bound);
    assert i < n;
  }

  // ---------- block data ----------

  lemma {:induction false} BlockContentStable(rows: Table, store: map<nat, Bytes>, grown: map<nat, Bytes>)
    requires store.Keys <= grown.Keys && forall id | id in store :: grown[id] == store[id]
    requires forall i | 0 <= i < |rows| :: rows[i].payload.Block? && rows[i].payload.blockId in store
    ensures BlockContent(rows, grown) == BlockContent(rows, store)
  {
    if rows != [] { BlockContentStable(rows[..|rows| - 1], store, grown); }
  }

  lemma SelectedBlocksAreStored(s: Server, marker: nat)
    requires s.Valid()
    ensures forall i | 0 <= i < |UpTo(s.blocks, marker)| ::
              UpTo(s.blocks, marker)[i].payload.Block? && UpTo(s.blocks, marker)[i].payload.blockId in s.blockstore
  {
    var n := AscendingSplits(s.blocks, marker);
  }

  // ---------- certificates ----------

  lemma BoundIsNotGreater(certificates: seq<Certificate>, topic: Topic, snapshot: DateTime)
    ensures var bound := CertificateBound(certificates, topic, snapshot);
            bound.Some? ==> HasTopic(certificates, topic) && !IsGreater(certificates, topic, bound.value)
  {
    BoundIsReal(certificates, topic, snapshot);
  }

  lemma WithinIsKept(s: Server, t: Server, topic: Topic, snapshot: DateTime)
    requires Extends(s, t)
    ensures var bound := CertificateBound(s.certificates, topic.Dating(), snapshot);
            CertificatesWithin(t.certificates, topic, bound) == CertificatesWithin(s.certificates, topic, bound)
  {
    var bound := CertificateBound(s.certificates, topic.Dating(), snapshot);
    BoundIsNotGreater(s.certificates, topic.Dating(), snapshot);
    if bound.Some? { NewIsLater(s, t, topic, bound.value); }
  }

  /** The answer to the certificates request of a run stays what it was when its base information
      was answered: what comes in between is later than the bounds. */
  lemma CertificatesAreStable(s: Server, t: Server, snapshot: DateTime)
    requires Extends(s, t)
    ensures DoCertificates(t, DoBaseInfo(s, snapshot)) == DoCertificates(s, DoBaseInfo(s, snapshot))
  {
    hide CertificatesWithin, CertificateBound, Extends;
    WithinIsKept(s, t, Common, snapshot);
    WithinIsKept(s, t, Realm, snapshot);
    WithinIsKept(s, t, Sequester, snapshot);
    WithinIsKept(s, t, KeysBundle, snapshot);
    WithinIsKept(s, t, UserAccess, snapshot);
    WithinIsKept(s, t, SequesterAccess, snapshot);
  }

  /** The bound selects what the snapshot selects. */
  lemma WithinBoundIsUpToSnapshot(certificates: seq<Certificate>, topic: Topic, snapshot: DateTime)
    ensures CertificatesWithin(certificates, topic, CertificateBound(certificates, topic, snapshot))
         == CertificatesUpTo(certificates, topic, snapshot)
  {
    var selected := CertificatesUpTo(certificates, topic, snapshot);
    var bound := CertificateBound(certificates, topic, snapshot);
    if bound.Some? {
      BoundIsReal(certificates, topic, snapshot);
      forall c | c in selected ensures c.timestamp <= bound.value {
        SelectedIsUpTo(certificates, topic, snapshot, c);
      }
      LowerBoundSelectsSame(certificates, topic, snapshot, bound.value);
    } else if selected != [] {
      SelectedIsUpTo(certificates, topic, snapshot, selected[0]);
    }
  }

  lemma {:induction false} LowerBoundSelectsSame(
    certificates: seq<Certificate>, topic: Topic, snapshot: DateTime, bound: DateTime)
    requires bound <= snapshot && forall c | c in CertificatesUpTo(certificates, topic, snapshot) ::
               c.timestamp <= bound
    ensures CertificatesUpTo(certificates, topic, bound) == CertificatesUpTo(certificates, topic, snapshot)
  {
    if certificates != [] {
      var head: seq<Certificate> :=
        if certificates[0].topic == topic && certificates[0].timestamp <= snapshot then [certificates[0]] else [];
      assert CertificatesUpTo(certificates, topic, snapshot)
          == head + CertificatesUpTo(certificates[1..], topic, snapshot);
      assert forall c | c in head :: c in CertificatesUpTo(certificates, topic, snapshot);
      LowerBoundSelectsSame(certificates[1..], topic, snapshot, bound);
    }
  }

  ghost predicate LateOfTopic(s: Server, t: Server, topic: Topic, snapshot: DateTime)
  {
    exists i | |s.certificates| <= i < |t.certificates| ::
      t.certificates[i].topic == topic && t.certificates[i].timestamp <= snapshot
  }

  lemma LateIsOfSomeTopic(s: Server, t: Server, snapshot: DateTime)
    ensures LateCertificate(s, t, snapshot)
       <==> || LateOfTopic(s, t, Common, snapshot) || LateOfTopic(s, t, Realm, snapshot)
            || LateOfTopic(s, t, Sequester, snapshot)
  {
  }

  lemma TopicStableIff(s: Server, t: Server, topic: Topic, snapshot: DateTime)
    requires s.certificates <= t.certificates
    ensures CertificatesWithin(t.certificates, topic, CertificateBound(t.certificates, topic, snapshot))
         == CertificatesWithin(s.certificates, topic, CertificateBound(s.certificates, topic, snapshot))
       <==> !LateOfTopic(s, t, topic, snapshot)
    ensures !LateOfTopic(s, t, topic, snapshot) ==>
              CertificateBound(t.certificates, topic, snapshot) == CertificateBound(s.certificates, topic, snapshot)
  {
    WithinBoundIsUpToSnapshot(s.certificates, topic, snapshot);
    WithinBoundIsUpToSnapshot(t.certificates, topic, snapshot);
    CertificatesStableIff(s.certificates, t.certificates, topic, snapshot);
  }

  /** The certificates to export change exactly when a late one is handed in. */
  lemma CertificatesStableUnlessLate(s: Server, t: Server, snapshot: DateTime)
    requires Extends(s, t)
    ensures CompleteExport(t, snapshot).certificates == CompleteExport(s, snapshot).certificates
       <==> !LateCertificate(s, t, snapshot)
  {
    ExtendsKeepsTables(s, t);
    hide CertificatesWithin, CertificateBound, Extends, LateCertificate, LateOfTopic, BlockContent, UpTo, UpperBound;
    LateIsOfSomeTopic(s, t, snapshot);
    TopicStableIff(s, t, Common, snapshot);
    TopicStableIff(s, t, Realm, snapshot);
    TopicStableIff(s, t, Sequester, snapshot);
    WithinIsKept(s, t, KeysBundle, snapshot);
    WithinIsKept(s, t, UserAccess, snapshot);
    WithinIsKept(s, t, SequesterAccess, snapshot);
  }

  lemma ExtendsKeepsTables(s: Server, t: Server)
    requires Extends(s, t)
    ensures s.certificates <= t.certificates && s.vlobs <= t.vlobs && s.blocks <= t.blocks
    ensures s.blockstore.Keys <= t.blockstore.Keys && forall id | id in s.blockstore ::
              t.blockstore[id] == s.blockstore[id]
  {
  }

  // ---------- the whole export ----------

  /** Something of the snapshot that the server did not have in state `s`. */
  ghost predicate LateItem(s: Server, t: Server, snapshot: DateTime)
  {
    LateCertificate(s, t, snapshot) || LateRow(s.vlobs, t.vlobs, snapshot) || LateRow(s.blocks, t.blocks, snapshot)
  }

  lemma SameBlocksSameData(s: Server, t: Server, snapshot: DateTime)
    requires s.Valid() && t.Valid() && Extends(s, t)
    requires CompleteExport(t, snapshot).blocks == CompleteExport(s, snapshot).blocks
    ensures CompleteExport(t, snapshot).blockData == CompleteExport(s, snapshot).blockData
  {
    ExtendsKeepsTables(s, t);
    hide UpTo, UpperBound, DoCertificates, Extends;
    SelectedBlocksAreStored(s, UpperBound(s.blocks, snapshot));
    BlockContentStable(UpTo(s.blocks, UpperBound(s.blocks, snapshot)), s.blockstore, t.blockstore);
  }

  lemma SameRowsSameInfo(s: Server, t: Server, snapshot: DateTime)
    requires Extends(s, t) && !LateRow(s.vlobs, t.vlobs, snapshot) && !LateRow(s.blocks, t.blocks, snapshot)
    ensures DoBaseInfo(t, snapshot).info == DoBaseInfo(s, snapshot).info
  {
    RowsStableIff(s.vlobs, t.vlobs, snapshot);
    RowsStableIff(s.blocks, t.blocks, snapshot);
  }

  /** The export that has to be produced changes exactly when something of the snapshot comes late. */
  lemma ExportStableIff(s: Server, t: Server, snapshot: DateTime)
    requires s.Valid() && t.Valid() && Extends(s, t)
    ensures CompleteExport(t, snapshot) == CompleteExport(s, snapshot) <==> !LateItem(s, t, snapshot)
  {
    ExtendsKeepsTables(s, t);
    SelectionStableIff(s.vlobs, t.vlobs, snapshot);
    SelectionStableIff(s.blocks, t.blocks, snapshot);
    CertificatesStableUnlessLate(s, t, snapshot);
    PartsOfExport(s, snapshot);
    PartsOfExport(t, snapshot);
    hide CompleteExport, Extends, LateRow, LateCertificate;
    if !LateItem(s, t, snapshot) {
      SameBlocksSameData(s, t, snapshot);
      SameRowsSameInfo(s, t, snapshot);
    }
  }

  lemma PartsOfExport(s: Server, snapshot: DateTime)
    ensures CompleteExport(s, snapshot).info == DoBaseInfo(s, snapshot).info
    ensures CompleteExport(s, snapshot).vlobs == UpTo(s.vlobs, UpperBound(s.vlobs, snapshot))
    ensures CompleteExport(s, snapshot).blocks == UpTo(s.blocks, UpperBound(s.blocks, snapshot))
    ensures CompleteExport(s, snapshot).blockData == BlockContent(CompleteExport(s, snapshot).blocks, s.blockstore)
  {
  }

  lemma ExportGrows(s: Server, t: Server, snapshot: DateTime)
    requires t.Valid() && Extends(s, t)
    ensures CompleteExport(s, snapshot).vlobs <= CompleteExport(t, snapshot).vlobs
    ensures CompleteExport(s, snapshot).blocks <= CompleteExport(t, snapshot).blocks
  {
    hide CompleteExport, UpTo, UpperBound;
    PartsOfExport(s, snapshot);
    PartsOfExport(t, snapshot);
    SelectionGrows(s.vlobs, t.vlobs, snapshot);
    SelectionGrows(s.blocks, t.blocks, snapshot);
  }

  // ---------- what a caller can tell beforehand ----------

  /** A late item can still come, with requests that take at most `delay`: a sequester certificate, a
      block whose upload is under way, or a common certificate. */
  predicate CanStillChange(s: Server, snapshot: DateTime, delay: nat)
  {
    || IsGreater(s.certificates, Sequester, snapshot)
    || s.clock - delay <= snapshot
    || (EarliestAllowedSnapshotTimestamp(s.clock) - delay < snapshot && IsGreater(s.certificates, Common, snapshot))
  }

  lemma NoLateItem(s: Server, t: Server, snapshot: DateTime, delay: nat)
    requires Extends(s, t) && DatedSince(s, t, delay) && HasTopic(s.certificates, Common)
    requires !CanStillChange(s, snapshot, delay)
    ensures !LateItem(s, t, snapshot)
  {
    forall i | |s.certificates| <= i < |t.certificates| && !t.certificates[i].topic.IsKeyMaterial()
      ensures snapshot < t.certificates[i].timestamp
    {
      assert NewCertificate(s, t.certificates[i]);
    }
    forall i | |s.vlobs| <= i < |t.vlobs| ensures snapshot < t.vlobs[i].createdOn {
      assert NewVlob(s, t.vlobs[i]);
    }
  }

  lemma LateCommon(s: Server, snapshot: DateTime, delay: nat) returns (upload: Upload)
    requires EarliestAllowedSnapshotTimestamp(s.clock) - delay < snapshot && IsGreater(s.certificates, Common, snapshot)
    ensures Prompt([upload], delay) && LateItem(s, AcceptAll(s, [upload]), snapshot)
  {
    var certificate := Certificate(Common, snapshot, []);
    upload := UploadCertificate(Latest(s.clock, snapshot), Received(s.clock, snapshot, delay), certificate, []);
    AcceptOne(s, upload);
    var t := Accept(s, upload);
    assert t.certificates == s.certificates + [certificate];
    assert t.certificates[|s.certificates|] == certificate;
  }

  /** What can be said before an export is started: with requests that take at most `delay`, the export
      can still change exactly in these states. The check of an export excludes the last two of them for
      requests that take no time, and only for those. */
  lemma ExportCanChangeIff(s: Server, snapshot: DateTime, delay: nat)
    requires s.Valid() && HasTopic(s.certificates, Common) && HasTopic(s.certificates, Realm)
    ensures (exists uploads :: Prompt(uploads, delay)
               && CompleteExport(AcceptAll(s, uploads), snapshot) != CompleteExport(s, snapshot))
       <==> CanStillChange(s, snapshot, delay)
  {
    hide CompleteExport;
    if CanStillChange(s, snapshot, delay) {
      var upload := LateUpload(s, snapshot, delay);
      AcceptAllExtends(s, [upload]);
      ExportStableIff(s, AcceptAll(s, [upload]), snapshot);
      assert Prompt([upload], delay) && CompleteExport(AcceptAll(s, [upload]), snapshot) != CompleteExport(s, snapshot);
    }
    forall uploads | Prompt(uploads, delay) && !CanStillChange(s, snapshot, delay)
      ensures CompleteExport(AcceptAll(s, uploads), snapshot) == CompleteExport(s, snapshot)
    {
      AcceptAllExtends(s, uploads);
      PromptIsDated(s, uploads, delay);
      NoLateItem(s, AcceptAll(s, uploads), snapshot, delay);
      ExportStableIff(s, AcceptAll(s, uploads), snapshot);
    }
  }

  lemma LateUpload(s: Server, snapshot: DateTime, delay: nat) returns (upload: Upload)
    requires CanStillChange(s, snapshot, delay) && HasTopic(s.certificates, Realm)
    ensures Prompt([upload], delay) && LateItem(s, AcceptAll(s, [upload]), snapshot)
  {
    if IsGreater(s.certificates, Sequester, snapshot) {
      upload := LateSequester(s, snapshot);
    } else if s.clock - delay <= snapshot {
      upload := LateBlock(s, snapshot);
    } else {
      upload := LateCommon(s, snapshot, delay);
    }
  }

  // ---------- totals ----------

  /** A late row that is not empty. */
  ghost predicate HeavyRow(before: Table, after: Table, snapshot: DateTime)
  {
    exists i | |before| <= i < |after| :: after[i].createdOn <= snapshot && after[i].size > 0
  }

  lemma {:induction false} SnapshotSizes(rows: Table, snapshot: DateTime)
    ensures SumSizes(AtSnapshot(rows, snapshot)) > 0
       <==> exists i | 0 <= i < |rows| :: rows[i].createdOn <= snapshot && rows[i].size > 0
  {
    if rows != [] {
      var head: Table := if rows[0].createdOn <= snapshot then [rows[0]] else [];
      SumSizesConcat(head, AtSnapshot(rows[1..], snapshot));
      SumSizesOfOne(rows[0]);
      SnapshotSizes(rows[1..], snapshot);
      assert forall i | 0 < i < |rows| :: rows[i] == rows[1..][i - 1];
      assert forall i | 0 <= i < |rows| - 1 :: rows[1..][i] == rows[i + 1];
    }
  }

  lemma SumSizesOfOne(row: Row<Payload>)
    ensures SumSizes([row]) == row.size
  {
    assert [row][1..] == [];
  }

  lemma TotalGrowsIff(before: Table, after: Table, snapshot: DateTime)
    requires before <= after
    ensures SumSizes(AtSnapshot(after, snapshot)) >= SumSizes(AtSnapshot(before, snapshot))
    ensures SumSizes(AtSnapshot(after, snapshot)) != SumSizes(AtSnapshot(before, snapshot))
       <==> HeavyRow(before, after, snapshot)
  {
    hide AtSnapshot, SumSizes;
    var more := after[|before|..];
    assert after == before + more;
    AtSnapshotConcat(before, more, snapshot);
    SumSizesConcat(AtSnapshot(before, snapshot), AtSnapshot(more, snapshot));
    SnapshotSizes(more, snapshot);
    assert forall i | 0 <= i < |more| :: more[i] == after[|before| + i];
    assert forall i | |before| <= i < |after| :: after[i] == more[i - |before|];
  }

  /** A database made for one state of the server is refused in a later one exactly when a late row
      that is not empty has come. */
  lemma InfoStableIff(s: Server, t: Server, snapshot: DateTime)
    requires Extends(s, t)
    ensures DoBaseInfo(t, snapshot).info == DoBaseInfo(s, snapshot).info
       <==> !HeavyRow(s.vlobs, t.vlobs, snapshot) && !HeavyRow(s.blocks, t.blocks, snapshot)
  {
    hide AtSnapshot, SumSizes, HeavyRow;
    TotalGrowsIff(s.vlobs, t.vlobs, snapshot);
    TotalGrowsIff(s.blocks, t.blocks, snapshot);
  }

  // ---------- what an export holds, item by item ----------

  lemma {:induction false} SelectedIff(certificates: seq<Certificate>, topic: Topic, bound: DateTime, c: Certificate)
    ensures c in CertificatesUpTo(certificates, topic, bound)
       <==> c in certificates && c.topic == topic && c.timestamp <= bound
  {
    if certificates != [] { SelectedIff(certificates[1..], topic, bound, c); }
  }

  /** `part` is `whole` with some elements left out. */
  predicate IsPart(part: seq<Certificate>, whole: seq<Certificate>)
  {
    if part == [] then true
    else whole != []
         && if part[0] == whole[0] then IsPart(part[1..], whole[1..]) else IsPart(part, whole[1..])
  }

  lemma {:induction false} SelectedKeepsOrder(certificates: seq<Certificate>, topic: Topic, bound: DateTime)
    ensures IsPart(CertificatesUpTo(certificates, topic, bound), certificates)
  {
    if certificates != [] {
      var rest := CertificatesUpTo(certificates[1..], topic, bound);
      SelectedKeepsOrder(certificates[1..], topic, bound);
      if certificates[0].topic == topic && certificates[0].timestamp <= bound {
        assert ([certificates[0]] + rest)[1..] == rest;
      } else {
        assert [] + rest == rest;
        PartOfLonger(rest, certificates[1..], certificates[0]);
        assert certificates == [certificates[0]] + certificates[1..];
      }
    }
  }

  lemma {:induction false} PartOfLonger(part: seq<Certificate>, whole: seq<Certificate>, first: Certificate)
    requires IsPart(part, whole)
    ensures IsPart(part, [first] + whole)
    decreases |whole|, 1
  {
    var longer := [first] + whole;
    assert longer[1..] == whole;
    if part != [] && part[0] == first {
      TailIsPart(part, whole);
    }
  }

  lemma {:induction false} TailIsPart(part: seq<Certificate>, whole: seq<Certificate>)
    requires part != [] && IsPart(part, whole)
    ensures IsPart(part[1..], whole)
    decreases |whole|, 0
  {
    if part[0] == whole[0] {
      PartOfLonger(part[1..], whole[1..], whole[0]);
      assert [whole[0]] + whole[1..] == whole;
    } else {
      TailIsPart(part, whole[1..]);
      PartOfLonger(part[1..], whole[1..], whole[0]);
      assert [whole[0]] + whole[1..] == whole;
    }
  }

  /** Each certificate table holds the certificates of its topic up to the snapshot, in order. */
  lemma CertificatesHeld(s: Server, snapshot: DateTime, c: Certificate)
    ensures var held := CompleteExport(s, snapshot).certificates;
            && (c in held.common <==> c in s.certificates && c.topic == Common && c.timestamp <= snapshot)
            && (c in held.realm <==> c in s.certificates && c.topic == Realm && c.timestamp <= snapshot)
            && (c in held.sequester <==> c in s.certificates && c.topic == Sequester && c.timestamp <= snapshot)
            && IsPart(held.common, s.certificates) && IsPart(held.realm, s.certificates)
            && IsPart(held.sequester, s.certificates)
  {
    TopicHeld(s, Common, snapshot, c);
    TopicHeld(s, Realm, snapshot, c);
    TopicHeld(s, Sequester, snapshot, c);
    hide CertificatesWithin, CertificateBound, IsPart, BlockContent, UpTo, UpperBound;
  }

  lemma TopicHeld(s: Server, topic: Topic, snapshot: DateTime, c: Certificate)
    ensures var held := CertificatesWithin(s.certificates, topic, CertificateBound(s.certificates, topic, snapshot));
            && (c in held <==> c in s.certificates && c.topic == topic && c.timestamp <= snapshot)
            && IsPart(held, s.certificates)
  {
    WithinBoundIsUpToSnapshot(s.certificates, topic, snapshot);
    SelectedIff(s.certificates, topic, snapshot, c);
    SelectedKeepsOrder(s.certificates, topic, snapshot);
  }

  /** Dated up to the last realm certificate of the snapshot. */
  ghost predicate UpToLastRealm(s: Server, snapshot: DateTime, timestamp: DateTime)
  {
    exists r | r in s.certificates && r.topic == Realm :: timestamp <= r.timestamp <= snapshot
  }

  /** Each table of key material holds the records of its kind up to the last realm certificate of the
      snapshot, in order. */
  lemma KeyMaterialHeld(s: Server, snapshot: DateTime, c: Certificate)
    ensures var held := CompleteExport(s, snapshot).certificates;
            && (c in held.keysBundles <==>
                  c in s.certificates && c.topic == KeysBundle && UpToLastRealm(s, snapshot, c.timestamp))
            && (c in held.userAccesses <==>
                  c in s.certificates && c.topic == UserAccess && UpToLastRealm(s, snapshot, c.timestamp))
            && (c in held.sequesterAccesses <==>
                  c in s.certificates && c.topic == SequesterAccess && UpToLastRealm(s, snapshot, c.timestamp))
            && IsPart(held.keysBundles, s.certificates) && IsPart(held.userAccesses, s.certificates)
            && IsPart(held.sequesterAccesses, s.certificates)
  {
    KeysHeld(s, KeysBundle, snapshot, c);
    KeysHeld(s, UserAccess, snapshot, c);
    KeysHeld(s, SequesterAccess, snapshot, c);
    hide CertificatesWithin, CertificateBound, IsPart, UpToLastRealm, BlockContent, UpTo, UpperBound;
  }

  lemma KeysHeld(s: Server, topic: Topic, snapshot: DateTime, c: Certificate)
    ensures var held := CertificatesWithin(s.certificates, topic, CertificateBound(s.certificates, Realm, snapshot));
            && (c in held <==> c in s.certificates && c.topic == topic && UpToLastRealm(s, snapshot, c.timestamp))
            && IsPart(held, s.certificates)
  {
    var bound := CertificateBound(s.certificates, Realm, snapshot);
    RealmBoundIsLast(s, snapshot, c.timestamp);
    if bound.Some? {
      SelectedIff(s.certificates, topic, bound.value, c);
      SelectedKeepsOrder(s.certificates, topic, bound.value);
    }
  }

  lemma RealmBoundIsLast(s: Server, snapshot: DateTime, timestamp: DateTime)
    ensures var bound := CertificateBound(s.certificates, Realm, snapshot);
            UpToLastRealm(s, snapshot, timestamp) <==> bound.Some? && timestamp <= bound.value
  {
    var bound := CertificateBound(s.certificates, Realm, snapshot);
    var selected := CertificatesUpTo(s.certificates, Realm, snapshot);
    if UpToLastRealm(s, snapshot, timestamp) {
      var r :| r in s.certificates && r.topic == Realm && timestamp <= r.timestamp <= snapshot;
      SelectedIff(s.certificates, Realm, snapshot, r);
      var i :| 0 <= i < |selected| && selected[i] == r;
      assert HasTopic(selected, Realm);
    }
    if bound.Some? && timestamp <= bound.value {
      BoundIsReal(s.certificates, Realm, snapshot);
      var i :| 0 <= i < |s.certificates| && s.certificates[i].topic == Realm
        && s.certificates[i].timestamp == bound.value;
      assert s.certificates[i] in s.certificates;
    }
  }

  /** An export is possible exactly when there is a realm and a common certificate up to the snapshot. */
  lemma BoundsMean(s: Server, snapshot: DateTime, topic: Topic)
    requires topic == Common || topic == Realm || topic == Sequester
    ensures var base := DoBaseInfo(s, snapshot);
            var bound := if topic == Common then base.commonBound
                         else if topic == Realm then base.realmBound else base.sequesterBound;
            bound.Some? <==> exists c | c in s.certificates :: c.topic == topic && c.timestamp <= snapshot
  {
    var selected := CertificatesUpTo(s.certificates, topic, snapshot);
    if c :| c in s.certificates && c.topic == topic && c.timestamp <= snapshot {
      SelectedIff(s.certificates, topic, snapshot, c);
      var i :| 0 <= i < |selected| && selected[i] == c;
      assert HasTopic(selected, topic);
    }
    if HasTopic(selected, topic) {
      var i :| 0 <= i < |selected| && selected[i].topic == topic;
      SelectedIff(s.certificates, topic, snapshot, selected[i]);
    }
  }

  lemma SelectedRowsIff(rows: Table, snapshot: DateTime, row: Row<Payload>)
    requires Ascending(rows)
    ensures row in UpTo(rows, UpperBound(rows, snapshot)) <==>
              row in rows && exists r | r in rows :: r.createdOn <= snapshot && row.sequentialId <= r.sequentialId
  {
    var bound := UpperBound(rows, snapshot);
    var n := AscendingSplits(rows, bound);
    MaxIdIsPresent(AtSnapshot(rows, snapshot));
    hide UpTo, UpperBound, AtSnapshot, MaxId;
    if row in UpTo(rows, bound) {
      var k :| 0 <= k < n && rows[k] == row;
      assert bound != 0;
      var i := BoundIsOfRow(rows, snapshot);
      assert rows[i] in rows;
    }
    if row in rows && exists r | r in rows :: r.createdOn <= snapshot && row.sequentialId <= r.sequentialId {
      var r :| r in rows && r.createdOn <= snapshot && row.sequentialId <= r.sequentialId;
      var i :| 0 <= i < |rows| && rows[i] == r;
      UpperBoundDominates(rows, snapshot, i);
      var k :| 0 <= k < |rows| && rows[k] == row;
      assert k < n;
    }
  }

  lemma BoundIsOfRow(rows: Table, snapshot: DateTime) returns (i: nat)
    requires UpperBound(rows, snapshot) != 0
    ensures i < |rows| && rows[i].createdOn <= snapshot && rows[i].sequentialId == UpperBound(rows, snapshot)
  {
    MaxIdIsPresent(AtSnapshot(rows, snapshot));
    i := SnapshotIdIsDated(rows, snapshot, UpperBound(rows, snapshot));
  }

  /** The two tables hold the rows up to the last one of the snapshot. */
  lemma RowsHeld(s: Server, snapshot: DateTime, kind: Kind, row: Row<Payload>)
    requires s.Valid()
    ensures row in CompleteExport(s, snapshot).Rows(kind) <==>
              row in s.Rows(kind)
              && exists r | r in s.Rows(kind) :: r.createdOn <= snapshot && row.sequentialId <= r.sequentialId
    ensures Ascending(CompleteExport(s, snapshot).Rows(kind))
  {
    hide UpTo, UpperBound, AtSnapshot, BlockContent, DoCertificates;
    SelectedRowsIff(s.Rows(kind), snapshot, row);
    SelectionIsCopy(s.Rows(kind), UpperBound(s.Rows(kind), snapshot));
  }

  lemma {:induction false} ContentIff(rows: Table, store: map<nat, Bytes>, id: nat, data: Bytes)
    requires Ascending(rows)
    requires forall i | 0 <= i < |rows| :: rows[i].payload.Block? && rows[i].payload.blockId in store
    ensures id in BlockContent(rows, store) && BlockContent(rows, store)[id] == data <==>
              exists row | row in rows :: row.sequentialId == id && store[row.payload.blockId] == data
  {
    if rows != [] {
      var n := |rows| - 1;
      var last := rows[n];
      AscendingSlice(rows, 0, n);
      assert rows[0..n] == rows[..n];
      ContentIff(rows[..n], store, id, data);
      assert forall row | row in rows :: row in rows[..n] || row == last;
      assert forall row | row in rows[..n] :: row in rows && row.sequentialId < last.sequentialId;
      assert last in rows;
    }
  }

  /** The block data held for an id is what the blockstore has for the exported block of that id. */
  lemma DataHeld(s: Server, snapshot: DateTime, id: nat, data: Bytes)
    requires s.Valid()
    ensures var target := CompleteExport(s, snapshot);
            id in target.blockData && target.blockData[id] == data <==>
              exists row | row in target.blocks ::
                row.sequentialId == id && row.payload.Block? && row.payload.blockId in s.blockstore
                && s.blockstore[row.payload.blockId] == data
  {
    hide UpTo, UpperBound, AtSnapshot, DoCertificates, BlockContent;
    PartsOfExport(s, snapshot);
    SelectionIsCopy(s.blocks, UpperBound(s.blocks, snapshot));
    SelectedBlocksAreStored(s, UpperBound(s.blocks, snapshot));
    ContentIff(CompleteExport(s, snapshot).blocks, s.blockstore, id, data);
  }

  /** Bytes of the rows dated up to the snapshot. */
  function DatedBytes(rows: Table, snapshot: DateTime): nat
  {
    if rows == [] then 0
    else
      var last := rows[|rows| - 1];
      DatedBytes(rows[..|rows| - 1], snapshot) + (if last.createdOn <= snapshot then last.size else 0)
  }

  lemma {:induction false} TotalIsDatedBytes(rows: Table, snapshot: DateTime)
    ensures SumSizes(AtSnapshot(rows, snapshot)) == DatedBytes(rows, snapshot)
  {
    if rows != [] {
      var n := |rows| - 1;
      TotalIsDatedBytes(rows[..n], snapshot);
      assert rows == rows[..n] + [rows[n]];
      AtSnapshotConcat(rows[..n], [rows[n]], snapshot);
      assert AtSnapshot([rows[n]], snapshot) == (if rows[n].createdOn <= snapshot then [rows[n]] else []) by {
        assert [rows[n]][1..] == [];
      }
      SumSizesConcat(AtSnapshot(rows[..n], snapshot), AtSnapshot([rows[n]], snapshot));
      SumSizesOfOne(rows[n]);
    }
  }

  /** What the identifying row says. */
  lemma InfoHeld(s: Server, snapshot: DateTime)
    ensures var info := CompleteExport(s, snapshot).info;
            && info.organizationId == s.organizationId && info.realmId == s.realmId
            && info.rootVerifyKey == s.rootVerifyKey && info.snapshot == snapshot
            && info.vlobsTotalBytes == DatedBytes(s.vlobs, snapshot)
            && info.blocksTotalBytes == DatedBytes(s.blocks, snapshot)
  {
    TotalIsDatedBytes(s.vlobs, snapshot);
    TotalIsDatedBytes(s.blocks, snapshot);
  }
}
