/** What the exporter sees of the server: one realm's append-only tables, the uploads that extend
    them (vlob_create.py, vlob_update.py, block_create.py and the certificate requests in
    server/parsec/components/postgresql), and the queries an export makes (realm_export_do_*.py). */
module RealmServer {
  import opened Basics
  import opened Ballpark
  import opened SequentialRows
  import opened Wrappers

  datatype Kind = VlobAtoms | Blocks

  datatype Payload =
    | Vlob(vlobId: nat, version: nat, vlobKeyIndex: nat, blob: Bytes, vlobAuthor: nat)
    | Block(blockId: nat, blockKeyIndex: nat, blockAuthor: nat)

  type Table = seq<Row<Payload>>

  /** Three topics of certificates, and the key material that comes with realm certificates. */
  datatype Topic = Common | Realm | Sequester | KeysBundle | UserAccess | SequesterAccess
  {
    predicate IsKeyMaterial() { KeysBundle? || UserAccess? || SequesterAccess? }

    /** The topic whose certificates date the record. */
    function Dating(): Topic { if IsKeyMaterial() then Realm else this }
  }

  /** A certificate, or a record of key material dated by its realm certificate. */
  datatype Certificate = Certificate(topic: Topic, timestamp: DateTime, raw: Bytes)

  datatype Server = Server(
    organizationId: string,
    realmId: nat,
    rootVerifyKey: Bytes,
    clock: DateTime,
    certificates: seq<Certificate>,
    vlobs: Table,
    blocks: Table,
    blockstore: map<nat, Bytes>)
  {
    function Rows(kind: Kind): Table { if kind == VlobAtoms then vlobs else blocks }

    /** Tables are in the order of their ids, and blocks are stored. */
    ghost predicate Valid()
    {
      && Ascending(vlobs)
      && Ascending(blocks)
      && (forall i | 0 <= i < |blocks| :: blocks[i].payload.Block? && blocks[i].payload.blockId in blockstore)
    }
  }

  // ---------- uploads ----------

  /** A request is received, checked against the clock of that moment, and takes effect at `now`: a
      block is dated before its data is stored, which may take any time, and inserted afterwards. */
  datatype Upload =
    | UploadVlob(now: DateTime, receivedOn: DateTime, sequentialId: nat, timestamp: DateTime, vlob: Payload)
    | UploadBlock(now: DateTime, receivedOn: DateTime, sequentialId: nat, block: Payload, data: Bytes)
    | UploadCertificate(now: DateTime, receivedOn: DateTime, certificate: Certificate, keys: seq<Certificate>)

  ghost predicate HasTopic(certificates: seq<Certificate>, topic: Topic)
  {
    exists i | 0 <= i < |certificates| :: certificates[i].topic == topic
  }

  ghost predicate HasTimestamp(certificates: seq<Certificate>, topic: Topic, timestamp: DateTime)
  {
    exists i | 0 <= i < |certificates| :: certificates[i].topic == topic && certificates[i].timestamp == timestamp
  }

  function LastTimestamp(certificates: seq<Certificate>, topic: Topic): (last: Option<DateTime>)
    ensures last.Some? <==> HasTopic(certificates, topic)
    ensures last.Some? ==>
              forall i | 0 <= i < |certificates| && certificates[i].topic == topic ::
                  certificates[i].timestamp <= last.value
    ensures last.Some? ==> HasTimestamp(certificates, topic, last.value)
  {
    if certificates == [] then None
    else
      var n := |certificates| - 1;
      var last := LastTimestamp(certificates[..n], topic);
      assert HasTopic(certificates[..n], topic) ==> HasTopic(certificates, topic);
      assert forall t | HasTimestamp(certificates[..n], topic, t) :: HasTimestamp(certificates, topic, t) by {
        assert forall i | 0 <= i < n :: certificates[..n][i] == certificates[i];
      }
      if certificates[n].topic == topic && (last.None? || last.value < certificates[n].timestamp)
      then Some(certificates[n].timestamp) else last
  }

  /** The topic exists and all of it is older: the check that answers `RequireGreaterTimestamp`. */
  predicate IsGreater(certificates: seq<Certificate>, topic: Topic, timestamp: DateTime)
  {
    var last := LastTimestamp(certificates, topic);
    last.Some? && last.value < timestamp
  }

  function CurrentVersion(vlobs: Table, vlobId: nat): nat
  {
    if vlobs == [] then 0
    else
      var last := vlobs[|vlobs| - 1].payload;
      if last.Vlob? && last.vlobId == vlobId then last.version else CurrentVersion(vlobs[..|vlobs| - 1], vlobId)
  }

  predicate AcceptsVlob(s: Server, receivedOn: DateTime, id: nat, timestamp: DateTime, vlob: Payload)
  {
    && vlob.Vlob? && MaxId(s.vlobs) < id
    && vlob.version == CurrentVersion(s.vlobs, vlob.vlobId) + 1
    && TimestampsInTheBallpark(timestamp, receivedOn).InTheBallpark?
    && IsGreater(s.certificates, Common, timestamp)
    && IsGreater(s.certificates, Realm, timestamp)
  }

  predicate AcceptsBlock(s: Server, id: nat, block: Payload)
  {
    && block.Block? && MaxId(s.blocks) < id && block.blockId !in s.blockstore
    && LastTimestamp(s.certificates, Realm).Some?
  }

  /** A sequester certificate may be signed long before it is handed in, so that its timestamp is
      not put to the ballpark check. */
  predicate AcceptsCertificate(s: Server, receivedOn: DateTime, certificate: Certificate, keys: seq<Certificate>)
  {
    match certificate.topic
    case Common =>
      keys == [] && TimestampsInTheBallpark(certificate.timestamp, receivedOn).InTheBallpark?
      && IsGreater(s.certificates, Common, certificate.timestamp)
    case Realm =>
      && (forall i | 0 <= i < |keys| :: keys[i].topic.IsKeyMaterial() && keys[i].timestamp == certificate.timestamp)
      && TimestampsInTheBallpark(certificate.timestamp, receivedOn).InTheBallpark?
      && IsGreater(s.certificates, Common, certificate.timestamp)
      && (LastTimestamp(s.certificates, Realm).Some? ==> IsGreater(s.certificates, Realm, certificate.timestamp))
    case Sequester => keys == [] && IsGreater(s.certificates, Sequester, certificate.timestamp)
    case _ => false
  }

  /** One client request. The server clock never goes back; ids come from a growing sequence; a
      vlob or certificate carries the client's timestamp, whereas a block is dated by the server. */
  function Accept(s: Server, u: Upload): Server
  {
    if u.now < s.clock || u.now < u.receivedOn then s
    else
      var s := s.(clock := u.now);
      match u
      case UploadVlob(_, receivedOn, id, timestamp, vlob) =>
        if AcceptsVlob(s, receivedOn, id, timestamp, vlob)
        then s.(vlobs := s.vlobs + [Row(id, timestamp, |vlob.blob|, vlob)]) else s
      case UploadBlock(_, receivedOn, id, block, data) =>
        if AcceptsBlock(s, id, block)
        then s.(blocks := s.blocks + [Row(id, receivedOn, |data|, block)],
                blockstore := s.blockstore[block.blockId := data])
        else s
      case UploadCertificate(_, receivedOn, certificate, keys) =>
        if AcceptsCertificate(s, receivedOn, certificate, keys)
        then s.(certificates := s.certificates + [certificate] + keys) else s
  }

  function AcceptAll(s: Server, uploads: seq<Upload>): Server
    decreases |uploads|
  {
    if uploads == [] then s else AcceptAll(Accept(s, uploads[0]), uploads[1..])
  }

  // ---------- how a server grows ----------

  /** Later than every certificate of the topic. */
  ghost predicate IsLater(certificates: seq<Certificate>, topic: Topic, timestamp: DateTime)
  {
    forall i | 0 <= i < |certificates| && certificates[i].topic == topic :: certificates[i].timestamp < timestamp
  }

  /** What the checks for a greater timestamp say of a certificate that was not there yet. */
  ghost predicate NewCertificate(s: Server, certificate: Certificate)
  {
    && IsLater(s.certificates, certificate.topic.Dating(), certificate.timestamp)
    && (certificate.topic == Sequester ==> HasTopic(s.certificates, Sequester))
    && (certificate.topic == Common ==> HasTopic(s.certificates, Common))
    && (certificate.topic == Realm ==> IsLater(s.certificates, Common, certificate.timestamp))
  }

  ghost predicate NewVlob(s: Server, row: Row<Payload>)
  {
    IsLater(s.certificates, Common, row.createdOn) && IsLater(s.certificates, Realm, row.createdOn)
  }

  /** `t` is `s` after any number of uploads, however long they took: tables are only appended to. */
  ghost predicate Extends(s: Server, t: Server)
  {
    && s.organizationId == t.organizationId && s.realmId == t.realmId && s.rootVerifyKey == t.rootVerifyKey
    && s.clock <= t.clock
    && s.vlobs <= t.vlobs
    && (forall i | |s.vlobs| <= i < |t.vlobs| :: NewVlob(s, t.vlobs[i]))
    && s.blocks <= t.blocks
    && s.certificates <= t.certificates
    && (forall i | |s.certificates| <= i < |t.certificates| :: NewCertificate(s, t.certificates[i]))
    && s.blockstore.Keys <= t.blockstore.Keys
    && (forall id | id in s.blockstore :: t.blockstore[id] == s.blockstore[id])
  }

  lemma AppendKeepsAscending(rows: Table, row: Row<Payload>)
    requires Ascending(rows) && MaxId(rows) < row.sequentialId
    ensures Ascending(rows + [row])
  {
    MaxIdIsPresent(rows);
  }

  lemma TickExtends(s: Server, now: DateTime)
    requires s.Valid() && s.clock <= now
    ensures s.(clock := now).Valid() && Extends(s, s.(clock := now))
  {
  }

  lemma VlobExtends(s: Server, receivedOn: DateTime, id: nat, timestamp: DateTime, vlob: Payload)
    requires s.Valid() && AcceptsVlob(s, receivedOn, id, timestamp, vlob)
    ensures var t := s.(vlobs := s.vlobs + [Row(id, timestamp, |vlob.blob|, vlob)]);
            t.Valid() && Extends(s, t)
  {
    AppendKeepsAscending(s.vlobs, Row(id, timestamp, |vlob.blob|, vlob));
  }

  lemma BlockExtends(s: Server, receivedOn: DateTime, id: nat, block: Payload, data: Bytes)
    requires s.Valid() && AcceptsBlock(s, id, block)
    ensures var t := s.(blocks := s.blocks + [Row(id, receivedOn, |data|, block)],
                        blockstore := s.blockstore[block.blockId := data]);
            t.Valid() && Extends(s, t)
  {
    AppendKeepsAscending(s.blocks, Row(id, receivedOn, |data|, block));
  }

  lemma CertificateExtends(s: Server, receivedOn: DateTime, certificate: Certificate, keys: seq<Certificate>)
    requires s.Valid() && AcceptsCertificate(s, receivedOn, certificate, keys)
    ensures var t := s.(certificates := s.certificates + [certificate] + keys);
            t.Valid() && Extends(s, t)
  {
    var added := [certificate] + keys;
    assert s.certificates + [certificate] + keys == s.certificates + added;
    forall i | 0 <= i < |added| ensures NewCertificate(s, added[i]) {
      if i > 0 { assert added[i] == keys[i - 1]; }
    }
  }

  lemma AcceptExtends(s: Server, u: Upload)
    requires s.Valid()
    ensures Accept(s, u).Valid() && Extends(s, Accept(s, u))
  {
    hide Extends, AcceptsVlob, AcceptsBlock, AcceptsCertificate;
    if s.clock <= u.now && u.receivedOn <= u.now {
      var ticked := s.(clock := u.now);
      TickExtends(s, u.now);
      match u {
        case UploadVlob(_, receivedOn, id, timestamp, vlob) =>
          if AcceptsVlob(ticked, receivedOn, id, timestamp, vlob) {
            VlobExtends(ticked, receivedOn, id, timestamp, vlob);
          }
        case UploadBlock(_, receivedOn, id, block, data) =>
          if AcceptsBlock(ticked, id, block) { BlockExtends(ticked, receivedOn, id, block, data); }
        case UploadCertificate(_, receivedOn, certificate, keys) =>
          if AcceptsCertificate(ticked, receivedOn, certificate, keys) {
            CertificateExtends(ticked, receivedOn, certificate, keys);
          }
      }
      if Accept(s, u) != ticked { ExtendsTransitive(s, ticked, Accept(s, u)); }
    } else {
      ExtendsReflexive(s);
    }
  }

  lemma ExtendsReflexive(s: Server)
    ensures Extends(s, s)
  {
  }

  lemma ExtendsTransitive(r: Server, s: Server, t: Server)
    requires Extends(r, s) && Extends(s, t)
    ensures Extends(r, t)
  {
    forall i | |r.certificates| <= i < |t.certificates| ensures NewCertificate(r, t.certificates[i]) {
      if i < |s.certificates| {
        assert t.certificates[i] == s.certificates[i];
      } else {
        NewIsNewBefore(r, s, t.certificates[i]);
      }
    }
    forall i | |r.vlobs| <= i < |t.vlobs| ensures NewVlob(r, t.vlobs[i]) {
      if i < |s.vlobs| { assert t.vlobs[i] == s.vlobs[i]; }
    }
  }

  lemma NewIsNewBefore(r: Server, s: Server, certificate: Certificate)
    requires Extends(r, s) && NewCertificate(s, certificate)
    ensures NewCertificate(r, certificate)
  {
    if certificate.topic == Sequester { TopicWasThere(r, s, Sequester); }
    if certificate.topic == Common { TopicWasThere(r, s, Common); }
  }

  lemma TopicWasThere(r: Server, s: Server, topic: Topic)
    requires Extends(r, s) && HasTopic(s.certificates, topic) && (topic == Sequester || topic == Common)
    ensures HasTopic(r.certificates, topic)
  {
    var i :| 0 <= i < |s.certificates| && s.certificates[i].topic == topic;
    assert i < |r.certificates| ==> r.certificates[i] == s.certificates[i];
    assert i >= |r.certificates| ==> NewCertificate(r, s.certificates[i]);
  }

  lemma {:induction false} AcceptAllExtends(s: Server, uploads: seq<Upload>)
    requires s.Valid()
    ensures AcceptAll(s, uploads).Valid() && Extends(s, AcceptAll(s, uploads))
    decreases |uploads|
  {
    hide Extends;
    if uploads == [] {
      ExtendsReflexive(s);
    } else {
      AcceptExtends(s, uploads[0]);
      AcceptAllExtends(Accept(s, uploads[0]), uploads[1..]);
      ExtendsTransitive(s, Accept(s, uploads[0]), AcceptAll(s, uploads));
    }
  }

  // ---------- requests that do not take long ----------

  /** Every request takes effect at most `delay` after it was received. */
  ghost predicate Prompt(uploads: seq<Upload>, delay: nat)
  {
    forall i | 0 <= i < |uploads| :: uploads[i].now - uploads[i].receivedOn <= delay
  }

  /** What is added is not dated long ago; sequester certificates may be. */
  ghost predicate DatedSince(s: Server, t: Server, delay: nat)
  {
    && s.vlobs <= t.vlobs && s.blocks <= t.blocks && s.certificates <= t.certificates && s.clock <= t.clock
    && (forall i | |s.vlobs| <= i < |t.vlobs| ::
          EarliestAllowedSnapshotTimestamp(s.clock) - delay < t.vlobs[i].createdOn)
    && (forall i | |s.blocks| <= i < |t.blocks| :: s.clock - delay <= t.blocks[i].createdOn)
    && (forall i | |s.certificates| <= i < |t.certificates| ::
          t.certificates[i].topic == Sequester
          || EarliestAllowedSnapshotTimestamp(s.clock) - delay < t.certificates[i].timestamp)
  }

  lemma AcceptIsDated(s: Server, u: Upload, delay: nat)
    requires u.now - u.receivedOn <= delay
    ensures DatedSince(s, Accept(s, u), delay)
  {
    var t := Accept(s, u);
    if u.UploadCertificate? && t.certificates != s.certificates {
      var added := [u.certificate] + u.keys;
      assert t.certificates == s.certificates + added;
      forall i | |s.certificates| <= i < |t.certificates|
        ensures t.certificates[i].topic == Sequester
             || EarliestAllowedSnapshotTimestamp(s.clock) - delay < t.certificates[i].timestamp
      {
        if i > |s.certificates| { assert t.certificates[i] == u.keys[i - |s.certificates| - 1]; }
      }
    }
  }

  lemma DatedTransitive(r: Server, s: Server, t: Server, delay: nat)
    requires DatedSince(r, s, delay) && DatedSince(s, t, delay)
    ensures DatedSince(r, t, delay)
  {
    assert forall i | 0 <= i < |s.vlobs| :: t.vlobs[i] == s.vlobs[i];
    assert forall i | 0 <= i < |s.blocks| :: t.blocks[i] == s.blocks[i];
    assert forall i | 0 <= i < |s.certificates| :: t.certificates[i] == s.certificates[i];
  }

  lemma {:induction false} PromptIsDated(s: Server, uploads: seq<Upload>, delay: nat)
    requires Prompt(uploads, delay)
    ensures DatedSince(s, AcceptAll(s, uploads), delay)
    decreases |uploads|
  {
    hide DatedSince, Accept;
    if uploads == [] {
      DatedReflexive(s, delay);
    } else {
      AcceptIsDated(s, uploads[0], delay);
      PromptIsDated(Accept(s, uploads[0]), uploads[1..], delay);
      DatedTransitive(s, Accept(s, uploads[0]), AcceptAll(s, uploads), delay);
    }
  }

  lemma DatedReflexive(s: Server, delay: nat)
    ensures DatedSince(s, s, delay)
  {
  }

  // ---------- base information ----------

  function AtSnapshot(rows: Table, snapshot: DateTime): Table
  {
    if rows == [] then []
    else (if rows[0].createdOn <= snapshot then [rows[0]] else []) + AtSnapshot(rows[1..], snapshot)
  }

  /** Highest id among the rows dated at or before the snapshot, 0 when there is none. */
  function UpperBound(rows: Table, snapshot: DateTime): nat
  {
    MaxId(AtSnapshot(rows, snapshot))
  }

  function CertificatesUpTo(certificates: seq<Certificate>, topic: Topic, bound: DateTime): seq<Certificate>
  {
    if certificates == [] then []
    else
      (if certificates[0].topic == topic && certificates[0].timestamp <= bound then [certificates[0]] else [])
      + CertificatesUpTo(certificates[1..], topic, bound)
  }

  /** Highest timestamp of the topic at or before the snapshot. */
  function CertificateBound(certificates: seq<Certificate>, topic: Topic, snapshot: DateTime): Option<DateTime>
  {
    LastTimestamp(CertificatesUpTo(certificates, topic, snapshot), topic)
  }

  function CertificatesWithin(certificates: seq<Certificate>, topic: Topic, bound: Option<DateTime>): seq<Certificate>
  {
    if bound.None? then [] else CertificatesUpTo(certificates, topic, bound.value)
  }

  // ---------- stability ----------

  lemma {:induction false} AtSnapshotConcat(a: Table, b: Table, snapshot: DateTime)
    ensures AtSnapshot(a + b, snapshot) == AtSnapshot(a, snapshot) + AtSnapshot(b, snapshot)
  {
    if a == [] {
      assert a + b == b;
    } else {
      assert (a + b)[1..] == a[1..] + b;
      AtSnapshotConcat(a[1..], b, snapshot);
      var head: Table := if a[0].createdOn <= snapshot then [a[0]] else [];
      assert head + (AtSnapshot(a[1..], snapshot) + AtSnapshot(b, snapshot))
          == (head + AtSnapshot(a[1..], snapshot)) + AtSnapshot(b, snapshot);
    }
  }

  lemma {:induction false} NothingAtSnapshot(rows: Table, snapshot: DateTime)
    requires forall i | 0 <= i < |rows| :: snapshot < rows[i].createdOn
    ensures AtSnapshot(rows, snapshot) == []
  {
    if rows != [] { NothingAtSnapshot(rows[1..], snapshot); }
  }

  lemma {:induction false} CertificatesConcat(a: seq<Certificate>, b: seq<Certificate>, topic: Topic, bound: DateTime)
    ensures CertificatesUpTo(a + b, topic, bound)
            == CertificatesUpTo(a, topic, bound) + CertificatesUpTo(b, topic, bound)
  {
    if a == [] {
      assert a + b == b;
    } else {
      assert (a + b)[1..] == a[1..] + b;
      CertificatesConcat(a[1..], b, topic, bound);
    }
  }

  /** Nothing is selected exactly when nothing of the topic is dated up to the bound. */
  lemma {:induction false} NoCertificateIff(certificates: seq<Certificate>, topic: Topic, bound: DateTime)
    ensures CertificatesUpTo(certificates, topic, bound) == []
       <==> forall i | 0 <= i < |certificates| && certificates[i].topic == topic :: bound < certificates[i].timestamp
  {
    if certificates != [] {
      var rest := certificates[1..];
      NoCertificateIff(rest, topic, bound);
      assert forall i | 0 <= i < |rest| :: rest[i] == certificates[i + 1];
      if forall i | 0 <= i < |rest| && rest[i].topic == topic :: bound < rest[i].timestamp {
        forall i | 0 < i < |certificates| && certificates[i].topic == topic ensures bound < certificates[i].timestamp {
          assert certificates[i] == rest[i - 1];
        }
      }
    }
  }

  lemma {:induction false} SelectedIsUpTo(certificates: seq<Certificate>, topic: Topic, bound: DateTime,
    certificate: Certificate)
    requires certificate in CertificatesUpTo(certificates, topic, bound)
    ensures certificate in certificates && certificate.topic == topic && certificate.timestamp <= bound
  {
    if certificate != certificates[0] || certificate.topic != topic || bound < certificate.timestamp {
      SelectedIsUpTo(certificates[1..], topic, bound, certificate);
    }
  }

  /** A certificate bound is the timestamp of a certificate, at or before the snapshot. */
  lemma BoundIsReal(certificates: seq<Certificate>, topic: Topic, snapshot: DateTime)
    ensures var bound := CertificateBound(certificates, topic, snapshot);
            bound.Some? ==> bound.value <= snapshot && HasTimestamp(certificates, topic, bound.value)
  {
    var selected := CertificatesUpTo(certificates, topic, snapshot);
    var bound := CertificateBound(certificates, topic, snapshot);
    if bound.Some? {
      var k :| 0 <= k < |selected| && selected[k].topic == topic && selected[k].timestamp == bound.value;
      SelectedIsUpTo(certificates, topic, snapshot, selected[k]);
    }
  }

  /** A row of the snapshot inserted after the table was `before`. */
  ghost predicate LateRow(before: Table, after: Table, snapshot: DateTime)
  {
    exists i | |before| <= i < |after| :: after[i].createdOn <= snapshot
  }

  /** A snapshot keeps its rows exactly when no late row comes. */
  lemma RowsStableIff(before: Table, after: Table, snapshot: DateTime)
    requires before <= after
    ensures AtSnapshot(after, snapshot) == AtSnapshot(before, snapshot) <==> !LateRow(before, after, snapshot)
  {
    hide AtSnapshot;
    var more := after[|before|..];
    assert after == before + more;
    AtSnapshotConcat(before, more, snapshot);
    var a, b := AtSnapshot(before, snapshot), AtSnapshot(more, snapshot);
    assert |a + b| == |a| + |b|;
    assert forall i | 0 <= i < |more| :: more[i] == after[|before| + i];
    if LateRow(before, after, snapshot) {
      var i :| |before| <= i < |after| && after[i].createdOn <= snapshot;
      SnapshotRowHasId(more, snapshot, i - |before|);
    } else {
      NothingAtSnapshot(more, snapshot);
    }
  }

  /** A selection of certificates stays as it is exactly when nothing dated up to its bound is added. */
  lemma CertificatesStableIff(before: seq<Certificate>, after: seq<Certificate>, topic: Topic, bound: DateTime)
    requires before <= after
    ensures CertificatesUpTo(after, topic, bound) == CertificatesUpTo(before, topic, bound)
       <==> forall i | |before| <= i < |after| && after[i].topic == topic :: bound < after[i].timestamp
  {
    hide CertificatesUpTo;
    var more := after[|before|..];
    assert after == before + more;
    CertificatesConcat(before, more, topic, bound);
    NoCertificateIff(more, topic, bound);
    LaterAfter(before, more, topic, bound);
    var a, b := CertificatesUpTo(before, topic, bound), CertificatesUpTo(more, topic, bound);
    assert |a + b| == |a| + |b|;
  }

  lemma LaterAfter(before: seq<Certificate>, more: seq<Certificate>, topic: Topic, bound: DateTime)
    ensures (forall i | 0 <= i < |more| && more[i].topic == topic :: bound < more[i].timestamp)
       <==> (forall i | |before| <= i < |before + more| && (before + more)[i].topic == topic ::
           bound < (before + more)[i].timestamp)
  {
    assert forall i | 0 <= i < |more| :: more[i] == (before + more)[|before| + i];
  }

  /** A certificate of the snapshot handed in after the server was in state `s`. */
  ghost predicate LateCertificate(s: Server, t: Server, snapshot: DateTime)
  {
    exists i | |s.certificates| <= i < |t.certificates| ::
      !t.certificates[i].topic.IsKeyMaterial() && t.certificates[i].timestamp <= snapshot
  }

  /** With requests that take at most `delay`, a snapshot that is older than the check of an export
      demands by that delay keeps its rows, bounds, common and realm certificates and key material. */
  lemma SnapshotIsStable(s: Server, uploads: seq<Upload>, delay: nat, snapshot: DateTime, kind: Kind, topic: Topic)
    requires Prompt(uploads, delay) && snapshot <= EarliestAllowedSnapshotTimestamp(s.clock) - delay
    ensures var t := AcceptAll(s, uploads);
            && AtSnapshot(t.Rows(kind), snapshot) == AtSnapshot(s.Rows(kind), snapshot)
            && UpperBound(t.Rows(kind), snapshot) == UpperBound(s.Rows(kind), snapshot)
            && (topic != Sequester ==>
                  CertificatesUpTo(t.certificates, topic, snapshot)
                    == CertificatesUpTo(s.certificates, topic, snapshot))
  {
    PromptIsDated(s, uploads, delay);
    var t := AcceptAll(s, uploads);
    RowsStableIff(s.Rows(kind), t.Rows(kind), snapshot);
    CertificatesStableIff(s.certificates, t.certificates, topic, snapshot);
  }

  /** Sequester certificates are the exception, whatever the snapshot: more of them can still come
      exactly as long as the last one is dated before the snapshot. */
  lemma SequesterCanChangeIff(s: Server, snapshot: DateTime, delay: nat)
    requires s.Valid()
    ensures (exists uploads :: Prompt(uploads, delay)
               && CertificatesUpTo(AcceptAll(s, uploads).certificates, Sequester, snapshot)
                  != CertificatesUpTo(s.certificates, Sequester, snapshot))
       <==> IsGreater(s.certificates, Sequester, snapshot)
  {
    if IsGreater(s.certificates, Sequester, snapshot) {
      var upload := LateSequester(s, snapshot);
      CertificatesStableIff(s.certificates, Accept(s, upload).certificates, Sequester, snapshot);
      assert Prompt([upload], delay)
             && CertificatesUpTo(AcceptAll(s, [upload]).certificates, Sequester, snapshot)
                != CertificatesUpTo(s.certificates, Sequester, snapshot);
    }
    forall uploads | !IsGreater(s.certificates, Sequester, snapshot)
      ensures CertificatesUpTo(AcceptAll(s, uploads).certificates, Sequester, snapshot)
           == CertificatesUpTo(s.certificates, Sequester, snapshot)
    {
      AcceptAllExtends(s, uploads);
      NewIsLater(s, AcceptAll(s, uploads), Sequester, snapshot);
    }
  }

  /** The upload of a sequester certificate dated like the snapshot. */
  lemma LateSequester(s: Server, snapshot: DateTime) returns (upload: Upload)
    requires IsGreater(s.certificates, Sequester, snapshot)
    ensures upload == UploadCertificate(s.clock, s.clock, Certificate(Sequester, snapshot, []), [])
    ensures Accept(s, upload) == s.(certificates := s.certificates + [upload.certificate])
    ensures AcceptAll(s, [upload]) == Accept(s, upload) && LateCertificate(s, Accept(s, upload), snapshot)
  {
    upload := UploadCertificate(s.clock, s.clock, Certificate(Sequester, snapshot, []), []);
    AcceptOne(s, upload);
    var t := Accept(s, upload);
    assert t.certificates == s.certificates + [upload.certificate];
    assert t.certificates[|s.certificates|] == upload.certificate;
  }

  lemma AcceptOne(s: Server, upload: Upload)
    ensures AcceptAll(s, [upload]) == Accept(s, upload)
  {
    assert [upload][1..] == [];
    assert AcceptAll(Accept(s, upload), []) == Accept(s, upload);
  }

  /** Certificates, and key material, that come later are later than what their topic had. */
  lemma NewIsLater(s: Server, t: Server, topic: Topic, bound: DateTime)
    requires Extends(s, t) && !IsGreater(s.certificates, topic.Dating(), bound)
    requires topic == Sequester || HasTopic(s.certificates, topic.Dating())
    ensures CertificatesUpTo(t.certificates, topic, bound) == CertificatesUpTo(s.certificates, topic, bound)
  {
    forall i | |s.certificates| <= i < |t.certificates| && t.certificates[i].topic == topic
      ensures bound < t.certificates[i].timestamp
    {
      assert NewCertificate(s, t.certificates[i]);
      var last := LastTimestamp(s.certificates, topic.Dating());
      var k :| 0 <= k < |s.certificates| && s.certificates[k].topic == topic.Dating()
               && s.certificates[k].timestamp == last.value;
    }
    CertificatesStableIff(s.certificates, t.certificates, topic, bound);
  }

  /** Which snapshots can still gain vlobs, with requests that take at most `delay`: those that are
      later than the last common and the last realm certificate, and not older than the check of an
      export demands by more than that delay. The check leaves no such margin. */
  lemma VlobsCanChangeIff(s: Server, snapshot: DateTime, delay: nat)
    requires s.Valid() && HasTopic(s.certificates, Common) && HasTopic(s.certificates, Realm)
    ensures (exists uploads :: Prompt(uploads, delay) && LateRow(s.vlobs, AcceptAll(s, uploads).vlobs, snapshot))
       <==> && EarliestAllowedSnapshotTimestamp(s.clock) - delay < snapshot
            && LastTimestamp(s.certificates, Common).value < snapshot
            && LastTimestamp(s.certificates, Realm).value < snapshot
  {
    if CanGainVlob(s, snapshot, delay) {
      var upload := LateVlob(s, snapshot, delay);
      assert Prompt([upload], delay) && LateRow(s.vlobs, AcceptAll(s, [upload]).vlobs, snapshot);
    }
    forall uploads | Prompt(uploads, delay) && !CanGainVlob(s, snapshot, delay)
      ensures !LateRow(s.vlobs, AcceptAll(s, uploads).vlobs, snapshot)
    {
      AcceptAllExtends(s, uploads);
      PromptIsDated(s, uploads, delay);
      NoLateVlob(s, AcceptAll(s, uploads), snapshot, delay);
    }
  }

  predicate CanGainVlob(s: Server, snapshot: DateTime, delay: nat)
  {
    && EarliestAllowedSnapshotTimestamp(s.clock) - delay < snapshot
    && IsGreater(s.certificates, Common, snapshot)
    && IsGreater(s.certificates, Realm, snapshot)
  }

  /** When a request that takes effect now must have been received to carry the snapshot's date. */
  function Received(clock: DateTime, snapshot: DateTime, delay: nat): DateTime
  {
    if clock < snapshot then snapshot else if snapshot < clock - delay then clock - delay else snapshot
  }

  function Latest(a: DateTime, b: DateTime): DateTime { if a < b then b else a }

  lemma LateVlob(s: Server, snapshot: DateTime, delay: nat) returns (upload: Upload)
    requires CanGainVlob(s, snapshot, delay)
    ensures Prompt([upload], delay) && LateRow(s.vlobs, AcceptAll(s, [upload]).vlobs, snapshot)
  {
    var id, vlob := MaxId(s.vlobs) + 1, Vlob(0, CurrentVersion(s.vlobs, 0) + 1, 1, [], 0);
    upload := UploadVlob(Latest(s.clock, snapshot), Received(s.clock, snapshot, delay), id, snapshot, vlob);
    AcceptOne(s, upload);
    var t := AcceptVlob(s, upload.now, upload.receivedOn, id, snapshot, vlob);
    assert t.vlobs[|s.vlobs|].createdOn == snapshot;
  }

  lemma NoLateVlob(s: Server, t: Server, snapshot: DateTime, delay: nat)
    requires Extends(s, t) && DatedSince(s, t, delay)
    requires HasTopic(s.certificates, Common) && HasTopic(s.certificates, Realm) && !CanGainVlob(s, snapshot, delay)
    ensures !LateRow(s.vlobs, t.vlobs, snapshot)
  {
    forall i | |s.vlobs| <= i < |t.vlobs| ensures snapshot < t.vlobs[i].createdOn {
      assert NewVlob(s, t.vlobs[i]);
    }
  }

  /** Which snapshots can still gain blocks: those that end at most `delay` ago. Without a limit on how
      long an upload takes, any snapshot can. */
  lemma BlocksCanChangeIff(s: Server, snapshot: DateTime, delay: nat)
    requires s.Valid() && HasTopic(s.certificates, Realm)
    ensures (exists uploads :: Prompt(uploads, delay) && LateRow(s.blocks, AcceptAll(s, uploads).blocks, snapshot))
       <==> s.clock - delay <= snapshot
    ensures exists uploads :: LateRow(s.blocks, AcceptAll(s, uploads).blocks, snapshot)
  {
    var slow := LateBlock(s, snapshot);
    assert LateRow(s.blocks, AcceptAll(s, [slow]).blocks, snapshot);
    if s.clock - delay <= snapshot {
      assert Prompt([slow], delay);
    }
    forall uploads | Prompt(uploads, delay) && snapshot < s.clock - delay
      ensures !LateRow(s.blocks, AcceptAll(s, uploads).blocks, snapshot)
    {
      PromptIsDated(s, uploads, delay);
    }
  }

  lemma {:induction false} FreshId(keys: set<nat>) returns (id: nat)
    ensures forall k | k in keys :: k < id
  {
    if keys == {} {
      id := 0;
    } else {
      var k :| k in keys;
      var above := FreshId(keys - {k});
      id := if k < above then above else k + 1;
      assert forall j | j in keys :: j == k || j in keys - {k};
    }
  }

  /** A block of one byte that was received before the snapshot ended and is inserted now. */
  lemma LateBlock(s: Server, snapshot: DateTime) returns (upload: Upload)
    requires HasTopic(s.certificates, Realm)
    ensures upload.now == s.clock && upload.UploadBlock?
    ensures upload.receivedOn == if snapshot < s.clock then snapshot else s.clock
    ensures AcceptAll(s, [upload]) == Accept(s, upload) && |upload.data| == 1
    ensures Accept(s, upload).blocks == s.blocks + [Row(upload.sequentialId, upload.receivedOn, 1, upload.block)]
    ensures Accept(s, upload)
         == s.(blocks := Accept(s, upload).blocks, blockstore := s.blockstore[upload.block.blockId := upload.data])
    ensures LateRow(s.blocks, Accept(s, upload).blocks, snapshot)
  {
    var id := FreshId(s.blockstore.Keys);
    upload := UploadBlock(
      s.clock, if snapshot < s.clock then snapshot else s.clock, MaxId(s.blocks) + 1, Block(id, 1, 0), [0]);
    AcceptOne(s, upload);
    assert id !in s.blockstore;
    assert Accept(s, upload).blocks[|s.blocks|].createdOn == upload.receivedOn;
  }

  // ---------- what a bound selects ----------

  lemma {:induction false} SnapshotIdIsDated(rows: Table, snapshot: DateTime, id: nat) returns (i: nat)
    requires HasId(AtSnapshot(rows, snapshot), id)
    ensures i < |rows| && rows[i].sequentialId == id && rows[i].createdOn <= snapshot
  {
    var head := if rows[0].createdOn <= snapshot then [rows[0]] else [];
    var k :| 0 <= k < |AtSnapshot(rows, snapshot)| && AtSnapshot(rows, snapshot)[k].sequentialId == id;
    if k < |head| {
      i := 0;
    } else {
      assert AtSnapshot(rows[1..], snapshot)[k - |head|].sequentialId == id;
      i := SnapshotIdIsDated(rows[1..], snapshot, id);
      i := i + 1;
    }
  }

  /** An upper bound is 0 or the id of a row. */
  lemma UpperBoundIsReal(rows: Table, snapshot: DateTime)
    ensures UpperBound(rows, snapshot) == 0 || HasId(rows, UpperBound(rows, snapshot))
  {
    MaxIdIsPresent(AtSnapshot(rows, snapshot));
    if UpperBound(rows, snapshot) != 0 {
      var i := SnapshotIdIsDated(rows, snapshot, UpperBound(rows, snapshot));
    }
  }

  /** A row dated after the snapshot comes before one dated up to it. */
  ghost predicate OutOfOrder(rows: Table, snapshot: DateTime)
  {
    exists i, j | 0 <= i < j < |rows| :: rows[j].createdOn <= snapshot < rows[i].createdOn
  }

  /** The rows an export copies are exactly the rows of the snapshot if and only if ids and dates do
      not disagree about the snapshot. */
  lemma ExportedRowsAreSnapshotIff(rows: Table, snapshot: DateTime)
    requires Ascending(rows)
    ensures UpTo(rows, UpperBound(rows, snapshot)) == AtSnapshot(rows, snapshot) <==> !OutOfOrder(rows, snapshot)
  {
    hide AtSnapshot, UpTo;
    var marker := UpperBound(rows, snapshot);
    MaxIdIsPresent(AtSnapshot(rows, snapshot));
    forall i | 0 <= i < |rows| && rows[i].createdOn <= snapshot ensures rows[i].sequentialId <= marker {
      SnapshotRowHasId(rows, snapshot, i);
    }
    SelectionsAgreeIff(rows, snapshot, marker);
    if OutOfOrder(rows, snapshot) {
      var i, j :| 0 <= i < j < |rows| && rows[j].createdOn <= snapshot < rows[i].createdOn;
      assert rows[i].sequentialId < rows[j].sequentialId <= marker;
    } else {
      forall i | 0 <= i < |rows| && rows[i].sequentialId <= marker ensures rows[i].createdOn <= snapshot {
        var j := SnapshotIdIsDated(rows, snapshot, marker);
        assert i < j ==> !(rows[j].createdOn <= snapshot < rows[i].createdOn);
      }
    }
  }

  lemma {:induction false} SnapshotRowHasId(rows: Table, snapshot: DateTime, i: nat)
    requires i < |rows| && rows[i].createdOn <= snapshot
    ensures HasId(AtSnapshot(rows, snapshot), rows[i].sequentialId)
  {
    var head: Table := if rows[0].createdOn <= snapshot then [rows[0]] else [];
    var rest := AtSnapshot(rows[1..], snapshot);
    if i == 0 {
      assert (head + rest)[0].sequentialId == rows[i].sequentialId;
    } else {
      SnapshotRowHasId(rows[1..], snapshot, i - 1);
      var k :| 0 <= k < |rest| && rest[k].sequentialId == rows[i].sequentialId;
      assert (head + rest)[|head| + k].sequentialId == rows[i].sequentialId;
    }
  }

  /** Every row that one selection takes, the other takes. */
  ghost predicate TakesNoMore(rows: Table, snapshot: DateTime, marker: nat)
  {
    forall i | 0 <= i < |rows| :: rows[i].sequentialId <= marker ==> rows[i].createdOn <= snapshot
  }

  lemma TakesNoMoreCons(rows: Table, snapshot: DateTime, marker: nat)
    requires rows != []
    ensures TakesNoMore(rows, snapshot, marker)
       <==> (rows[0].sequentialId <= marker ==>
           rows[0].createdOn <= snapshot) && TakesNoMore(rows[1..], snapshot, marker)
  {
    assert forall i | 0 <= i < |rows| - 1 :: rows[1..][i] == rows[i + 1];
    assert forall i | 0 < i < |rows| :: rows[i] == rows[1..][i - 1];
  }

  lemma SelectionsCons(rows: Table, snapshot: DateTime, marker: nat)
    requires rows != []
    ensures UpTo(rows, marker) == (if rows[0].sequentialId <= marker then [rows[0]] else []) + UpTo(rows[1..], marker)
    ensures AtSnapshot(rows, snapshot)
            == (if rows[0].createdOn <= snapshot then [rows[0]] else []) + AtSnapshot(rows[1..], snapshot)
  {
  }

  lemma {:induction false} SelectionsAgreeIff(rows: Table, snapshot: DateTime, marker: nat)
    requires forall i | 0 <= i < |rows| && rows[i].createdOn <= snapshot :: rows[i].sequentialId <= marker
    ensures |AtSnapshot(rows, snapshot)| <= |UpTo(rows, marker)|
    ensures UpTo(rows, marker) == AtSnapshot(rows, snapshot) <==> TakesNoMore(rows, snapshot, marker)
  {
    if rows != [] {
      hide TakesNoMore, UpTo, AtSnapshot;
      SelectionsCons(rows, snapshot, marker);
      TakesNoMoreCons(rows, snapshot, marker);
      SelectionsAgreeIff(rows[1..], snapshot, marker);
      var a, b := UpTo(rows[1..], marker), AtSnapshot(rows[1..], snapshot);
      if rows[0].createdOn <= snapshot {
        assert ([rows[0]] + a)[1..] == a && ([rows[0]] + b)[1..] == b;
      } else {
        assert [] + a == a && [] + b == b && |[rows[0]] + a| > |b|;
      }
    }
  }

  /** No two block uploads overlap: when one is received, all that was handled before is over. */
  ghost predicate OneBlockAtATime(s: Server, uploads: seq<Upload>)
    decreases |uploads|
  {
    uploads == []
    || ((uploads[0].UploadBlock? ==>
         s.clock <= uploads[0].receivedOn) && OneBlockAtATime(Accept(s, uploads[0]), uploads[1..]))
  }

  ghost predicate BlocksInOrder(s: Server)
  {
    && (forall i | 0 <= i < |s.blocks| :: s.blocks[i].createdOn <= s.clock)
    && (forall i, j | 0 <= i < j < |s.blocks| :: s.blocks[i].createdOn <= s.blocks[j].createdOn)
  }

  lemma {:induction false} BlocksStayInOrder(s: Server, uploads: seq<Upload>)
    requires BlocksInOrder(s) && OneBlockAtATime(s, uploads)
    ensures BlocksInOrder(AcceptAll(s, uploads))
    decreases |uploads|
  {
    if uploads != [] { BlocksStayInOrder(Accept(s, uploads[0]), uploads[1..]); }
  }

  /** Blocks are dated by the server: as long as their uploads do not overlap, what is exported is
      what the snapshot holds, whatever else is uploaded. */
  lemma ExportedBlocksAreSnapshot(s: Server, uploads: seq<Upload>, snapshot: DateTime)
    requires s.Valid() && BlocksInOrder(s) && OneBlockAtATime(s, uploads)
    ensures var blocks := AcceptAll(s, uploads).blocks;
            UpTo(blocks, UpperBound(blocks, snapshot)) == AtSnapshot(blocks, snapshot)
  {
    AcceptAllExtends(s, uploads);
    BlocksStayInOrder(s, uploads);
    ExportedRowsAreSnapshotIff(AcceptAll(s, uploads).blocks, snapshot);
  }

  /** Two uploads that overlap, the first received being inserted last, are enough for an allowed
      export to hold a block that its snapshot does not. */
  lemma ExportedBlocksCanDiffer(s: Server) returns (uploads: seq<Upload>, snapshot: DateTime)
    requires s.Valid() && s.blocks == [] && s.blockstore == map[] && HasTopic(s.certificates, Realm)
    ensures var t := AcceptAll(s, uploads);
            && snapshot <= EarliestAllowedSnapshotTimestamp(t.clock)
            && UpTo(t.blocks, UpperBound(t.blocks, snapshot)) != AtSnapshot(t.blocks, snapshot)
  {
    hide UpTo, AtSnapshot, UpperBound, Extends, Ascending, Accept, AcceptAll;
    snapshot := s.clock;
    var late := TwoBlocks(s);
    uploads := [Quick(snapshot), Lengthy(snapshot), Tick(snapshot)];
    AcceptThree(s, uploads[0], uploads[1], uploads[2]);
    TickIsRefused(late, snapshot);
    AcceptAllExtends(s, uploads);
    assert late.blocks[1].createdOn <= snapshot < late.blocks[0].createdOn;
    ExportedRowsAreSnapshotIff(late.blocks, snapshot);
  }

  function Quick(snapshot: DateTime): Upload { UploadBlock(snapshot + 1, snapshot + 1, 1, Block(1, 1, 1), []) }

  function Lengthy(snapshot: DateTime): Upload { UploadBlock(snapshot + 1, snapshot, 2, Block(2, 1, 2), []) }

  lemma TwoBlocks(s: Server) returns (t: Server)
    requires s.blocks == [] && s.blockstore == map[] && HasTopic(s.certificates, Realm)
    ensures t == Accept(Accept(s, Quick(s.clock)), Lengthy(s.clock)) && t.clock == s.clock + 1
    ensures |t.blocks| == 2 && t.blocks[0].createdOn == s.clock + 1 && t.blocks[1].createdOn == s.clock
  {
    hide LastTimestamp;
    var a := Accept(s, Quick(s.clock));
    assert a.blocks == [Row(1, s.clock + 1, 0, Block(1, 1, 1))];
    assert MaxId(a.blocks) == 1 by { assert a.blocks[1..] == []; }
    t := Accept(a, Lengthy(s.clock));
  }

  /** Vlobs are dated by clients: two clients, the second with a slower clock, are enough for an
      allowed export to hold a vlob that its snapshot does not. */
  lemma ExportedVlobsCanDiffer(s: Server) returns (uploads: seq<Upload>, snapshot: DateTime)
    requires s.Valid() && s.vlobs == [] && HasTopic(s.certificates, Common) && HasTopic(s.certificates, Realm)
    ensures var t := AcceptAll(s, uploads);
            && snapshot <= EarliestAllowedSnapshotTimestamp(t.clock)
            && UpTo(t.vlobs, UpperBound(t.vlobs, snapshot)) != AtSnapshot(t.vlobs, snapshot)
  {
    hide UpTo, AtSnapshot, UpperBound, Extends, Ascending, Accept, AcceptAll;
    snapshot := FreeSnapshot(s);
    var late := TwoVlobs(s, snapshot);
    uploads := [Fast(snapshot), Slow(snapshot), Tick(snapshot)];
    AcceptThree(s, uploads[0], uploads[1], uploads[2]);
    TickIsRefused(late, snapshot);
    AcceptAllExtends(s, uploads);
    assert late.vlobs[1].createdOn <= snapshot < late.vlobs[0].createdOn;
    ExportedRowsAreSnapshotIff(late.vlobs, snapshot);
  }

  function Fast(snapshot: DateTime): Upload { UploadVlob(snapshot, snapshot, 1, snapshot + 1, Vlob(1, 1, 1, [], 1)) }

  function Slow(snapshot: DateTime): Upload { UploadVlob(snapshot, snapshot, 2, snapshot, Vlob(2, 1, 1, [], 2)) }

  /** A request that comes later and is refused. */
  function Tick(snapshot: DateTime): Upload
  {
    var now := snapshot + BALLPARK_CLIENT_LATE_OFFSET;
    UploadBlock(now, now, 0, Vlob(2, 1, 1, [], 2), [])
  }

  lemma FreeSnapshot(s: Server) returns (snapshot: DateTime)
    requires HasTopic(s.certificates, Common) && HasTopic(s.certificates, Realm)
    ensures s.clock <= snapshot && IsGreater(s.certificates, Common, snapshot)
            && IsGreater(s.certificates, Realm, snapshot)
  {
    var common, realm := LastTimestamp(s.certificates, Common).value, LastTimestamp(s.certificates, Realm).value;
    var last := if common < realm then realm else common;
    snapshot := if last < s.clock then s.clock else last + 1;
  }

  lemma TwoVlobs(s: Server, snapshot: DateTime) returns (t: Server)
    requires s.vlobs == [] && s.clock <= snapshot
    requires IsGreater(s.certificates, Common, snapshot) && IsGreater(s.certificates, Realm, snapshot)
    ensures t == Accept(Accept(s, Fast(snapshot)), Slow(snapshot)) && t.clock == snapshot
    ensures |t.vlobs| == 2 && t.vlobs[0].createdOn == snapshot + 1 && t.vlobs[1].createdOn == snapshot
  {
    hide Accept, LastTimestamp;
    var a := AcceptVlob(s, snapshot, snapshot, 1, snapshot + 1, Fast(snapshot).vlob);
    assert CurrentVersion(a.vlobs, 2) == 0 by { assert a.vlobs[..0] == []; }
    assert MaxId(a.vlobs) == 1 by { assert a.vlobs[1..] == []; }
    t := AcceptVlob(a, snapshot, snapshot, 2, snapshot, Slow(snapshot).vlob);
  }

  lemma TickIsRefused(s: Server, snapshot: DateTime)
    requires s.clock <= Tick(snapshot).now
    ensures Accept(s, Tick(snapshot)) == s.(clock := Tick(snapshot).now)
  {
  }

  lemma AcceptVlob(s: Server, now: DateTime, receivedOn: DateTime, id: nat, timestamp: DateTime, vlob: Payload)
    returns (t: Server)
    requires s.clock <= now && receivedOn <= now && AcceptsVlob(s.(clock := now), receivedOn, id, timestamp, vlob)
    ensures t == Accept(s, UploadVlob(now, receivedOn, id, timestamp, vlob))
    ensures t == s.(clock := now, vlobs := s.vlobs + [Row(id, timestamp, |vlob.blob|, vlob)])
  {
    t := Accept(s, UploadVlob(now, receivedOn, id, timestamp, vlob));
  }

  lemma AcceptThree(s: Server, a: Upload, b: Upload, c: Upload)
    ensures AcceptAll(s, [a, b, c]) == Accept(Accept(Accept(s, a), b), c)
  {
    assert [a, b, c][1..] == [b, c] && [b, c][1..] == [c];
    AcceptOne(Accept(Accept(s, a), b), c);
    assert AcceptAll(Accept(s, a), [b, c]) == AcceptAll(Accept(Accept(s, a), b), [c]);
  }

  // ---------- what is accepted, in so many words ----------

  ghost predicate IsNewId(rows: Table, id: nat)
  {
    0 < id && forall i | 0 <= i < |rows| :: rows[i].sequentialId < id
  }

  lemma NewIdIff(rows: Table, id: nat)
    ensures MaxId(rows) < id <==> IsNewId(rows, id)
  {
    MaxIdIsPresent(rows);
    if HasId(rows, MaxId(rows)) { var i :| 0 <= i < |rows| && rows[i].sequentialId == MaxId(rows); }
  }

  lemma GreaterIff(certificates: seq<Certificate>, topic: Topic, timestamp: DateTime)
    ensures IsGreater(certificates, topic, timestamp)
       <==> HasTopic(certificates, topic) && IsLater(certificates, topic, timestamp)
  {
  }

  /** How many versions of a vlob the table has. */
  function Versions(vlobs: Table, vlobId: nat): nat
  {
    if vlobs == [] then 0
    else
      var last := vlobs[|vlobs| - 1].payload;
      Versions(vlobs[..|vlobs| - 1], vlobId) + (if last.Vlob? && last.vlobId == vlobId then 1 else 0)
  }

  /** The versions of every vlob are 1, 2, 3 and so on, in the order of the table. */
  ghost predicate VersionsCount(vlobs: Table)
  {
    forall i | 0 <= i < |vlobs| && vlobs[i].payload.Vlob? ::
      vlobs[i].payload.version == Versions(vlobs[..i], vlobs[i].payload.vlobId) + 1
  }

  lemma {:induction false} CurrentVersionCounts(vlobs: Table, vlobId: nat)
    requires VersionsCount(vlobs)
    ensures CurrentVersion(vlobs, vlobId) == Versions(vlobs, vlobId)
  {
    if vlobs != [] {
      var n := |vlobs| - 1;
      assert forall i | 0 <= i < n :: vlobs[..n][..i] == vlobs[..i];
      CurrentVersionCounts(vlobs[..n], vlobId);
    }
  }

  lemma AppendKeepsCount(vlobs: Table, row: Row<Payload>)
    requires VersionsCount(vlobs)
    requires row.payload.Vlob? ==> row.payload.version == Versions(vlobs, row.payload.vlobId) + 1
    ensures VersionsCount(vlobs + [row])
  {
    var after := vlobs + [row];
    assert forall i | 0 <= i < |vlobs| :: after[..i] == vlobs[..i];
    assert after[..|vlobs|] == vlobs;
  }

  /** Over any sequence of uploads, versions have no gap and no repetition. */
  lemma {:induction false} VersionsStayConsecutive(s: Server, uploads: seq<Upload>)
    requires VersionsCount(s.vlobs)
    ensures VersionsCount(AcceptAll(s, uploads).vlobs)
    decreases |uploads|
  {
    if uploads != [] {
      var u := uploads[0];
      var t := Accept(s, u);
      if t.vlobs != s.vlobs {
        CurrentVersionCounts(s.vlobs, u.vlob.vlobId);
        AppendKeepsCount(s.vlobs, t.vlobs[|s.vlobs|]);
      }
      VersionsStayConsecutive(t, uploads[1..]);
    }
  }

  /** Exactly which vlobs are accepted, and what accepting one changes. */
  lemma VlobUploadIff(s: Server, u: Upload)
    requires u.UploadVlob? && s.clock <= u.now && u.receivedOn <= u.now && VersionsCount(s.vlobs)
    ensures var accepted :=
              && u.vlob.Vlob? && IsNewId(s.vlobs, u.sequentialId)
              && u.vlob.version == Versions(s.vlobs, u.vlob.vlobId) + 1
              && u.receivedOn - 320_000_000 < u.timestamp < u.receivedOn + 300_000_000
              && HasTopic(s.certificates, Common) && IsLater(s.certificates, Common, u.timestamp)
              && HasTopic(s.certificates, Realm) && IsLater(s.certificates, Realm, u.timestamp);
            Accept(s, u) == if accepted
                            then s.(clock := u.now,
                                    vlobs := s.vlobs + [Row(u.sequentialId, u.timestamp, |u.vlob.blob|, u.vlob)])
                            else s.(clock := u.now)
  {
    hide MaxId, LastTimestamp;
    NewIdIff(s.vlobs, u.sequentialId);
    GreaterIff(s.certificates, Common, u.timestamp);
    GreaterIff(s.certificates, Realm, u.timestamp);
    if u.vlob.Vlob? { CurrentVersionCounts(s.vlobs, u.vlob.vlobId); }
  }

  /** Exactly which blocks are accepted: dated when the request is received, whatever time it takes. */
  lemma BlockUploadIff(s: Server, u: Upload)
    requires u.UploadBlock? && s.clock <= u.now && u.receivedOn <= u.now
    ensures var accepted :=
              && u.block.Block? && IsNewId(s.blocks, u.sequentialId) && u.block.blockId !in s.blockstore
              && HasTopic(s.certificates, Realm);
            Accept(s, u) == if accepted
                            then s.(clock := u.now,
                                    blocks := s.blocks + [Row(u.sequentialId, u.receivedOn, |u.data|, u.block)],
                                    blockstore := s.blockstore[u.block.blockId := u.data])
                            else s.(clock := u.now)
  {
    hide MaxId, LastTimestamp;
    NewIdIff(s.blocks, u.sequentialId);
  }

  ghost predicate InWindow(timestamp: DateTime, receivedOn: DateTime)
  {
    receivedOn - 320_000_000 < timestamp < receivedOn + 300_000_000
  }

  /** Exactly which certificates are accepted, with the key material a realm certificate brings. */
  lemma CertificateUploadIff(s: Server, u: Upload)
    requires u.UploadCertificate? && s.clock <= u.now && u.receivedOn <= u.now
    ensures var c, stored := u.certificate, s.certificates;
            var accepted :=
              || (c.topic == Common && u.keys == [] && InWindow(c.timestamp, u.receivedOn)
                  && HasTopic(stored, Common) && IsLater(stored, Common, c.timestamp))
              || (c.topic == Realm && InWindow(c.timestamp, u.receivedOn)
                  && HasTopic(stored, Common) && IsLater(stored, Common, c.timestamp)
                     && IsLater(stored, Realm, c.timestamp)
                  && forall k | k in u.keys ::
                       k.topic in {KeysBundle, UserAccess, SequesterAccess} && k.timestamp == c.timestamp)
              || (c.topic == Sequester && u.keys == []
                  && HasTopic(stored, Sequester) && IsLater(stored, Sequester, c.timestamp));
            Accept(s, u) == if accepted then s.(clock := u.now, certificates := stored + [c] + u.keys)
                            else s.(clock := u.now)
  {
    hide LastTimestamp;
    GreaterIff(s.certificates, Common, u.certificate.timestamp);
    GreaterIff(s.certificates, Realm, u.certificate.timestamp);
    GreaterIff(s.certificates, Sequester, u.certificate.timestamp);
    assert forall i | 0 <= i < |u.keys| :: u.keys[i] in u.keys;
  }
}
