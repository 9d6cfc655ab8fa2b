/** Rebuilding a file from its exported blocks (server/parsec/sequester_export_reader.py). */
module ExtractFile {
  import opened Basics
  import opened Wrappers

  type BlockId = nat
  type Key = nat

  datatype BlockAccess = BlockAccess(id: BlockId, key: Option<Key>, offset: nat, size: nat)
  datatype FileManifest = FileManifest(size: nat, blocks: seq<BlockAccess>)

  /** The block table of the export and the decryption, which may fail. */
  datatype Archive = Archive(rows: map<BlockId, Bytes>, decrypt: (Key, Bytes) -> Option<Bytes>)

  /** What the file system refuses: to open the file, to give it its size, to write some of the blocks,
      to close it. What is refused leaves the file alone. */
  datatype Faults = Faults(open: bool, truncate: bool, writes: set<nat>, close: bool)

  datatype Report =
    | ExtractingFile
    | Extracting(index: nat)
    | Missing(id: BlockId)
    | Undecipherable(id: BlockId)
    | NotOpened
    | NotWritten(id: BlockId)
    | NotClosed

  function ClearData(archive: Archive, block: BlockAccess): Option<Bytes>
  {
    if block.id in archive.rows
      && block.key.Some? then archive.decrypt(block.key.value, archive.rows[block.id]) else None
  }

  /** What a block contributes to the file: nothing if unreadable, and never more than its size. */
  function Written(archive: Archive, block: BlockAccess): (data: Bytes)
    ensures |data| <= block.size
  {
    match ClearData(archive, block)
    case None => []
    case Some(data) => if block.size < |data| then data[..block.size] else data
  }

  // ---------- the output file ----------

  function Zeros(n: nat): Bytes { seq(n, _ => 0) }

  function Padded(content: Bytes, n: nat): Bytes
  {
    if |content| < n then content + Zeros(n - |content|) else content
  }

  /** Writing at an offset; a gap after the end is filled with zeros. */
  function Overwritten(content: Bytes, offset: nat, data: Bytes): Bytes
  {
    if data == [] then content
    else
      var padded := Padded(content, offset + |data|);
      padded[..offset] + data + padded[offset + |data|..]
  }

  class OutputFile {
    var content: Bytes
    var cursor: nat

    constructor ()
      ensures content == [] && cursor == 0
    {
      content, cursor := [], 0;
    }

    /** Changes the length and leaves the cursor. */
    method Truncate(n: nat)
      modifies this
      ensures content == Padded(old(content), n)[..n] && cursor == old(cursor)
    {
      content := if n <= |content| then content[..n] else content + Zeros(n - |content|);
    }

    method Seek(offset: nat)
      modifies this
      ensures cursor == offset && content == old(content)
    {
      cursor := offset;
    }

    method Write(data: Bytes)
      modifies this
      ensures content == Overwritten(old(content), old(cursor), data) && cursor == old(cursor) + |data|
    {
      content := Overwritten(content, cursor, data);
      cursor := cursor + |data|;
    }
  }

  /** The content after the first blocks were written in turn. */
  function Extracted(archive: Archive, size: nat, blocks: seq<BlockAccess>): Bytes
  {
    if blocks == [] then Zeros(size)
    else
      var last := blocks[|blocks| - 1];
      Overwritten(Extracted(archive, size, blocks[..|blocks| - 1]), last.offset, Written(archive, last))
  }

  /** A block that cannot be written counts as one of size 0. */
  function Effective(blocks: seq<BlockAccess>, refused: set<nat>): (effective: seq<BlockAccess>)
    ensures |effective| == |blocks|
    ensures forall i | 0 <= i < |blocks| :: effective[i] == if i in refused then blocks[i].(size := 0) else blocks[i]
  {
    seq(|blocks|, i requires 0 <= i < |blocks| => if i in refused then blocks[i].(size := 0) else blocks[i])
  }

  /** What is reported about one block. */
  function BlockReports(archive: Archive, block: BlockAccess, refused: bool): seq<Report>
  {
    if block.id !in archive.rows then [Missing(block.id)]
    else if ClearData(archive, block).None? then [Undecipherable(block.id)]
    else if refused then [NotWritten(block.id)]
    else []
  }

  function Reports(archive: Archive, blocks: seq<BlockAccess>, refused: set<nat>): seq<Report>
  {
    if blocks == [] then []
    else
      var n := |blocks| - 1;
      Reports(archive, blocks[..n], refused) + ([Extracting(n)] + BlockReports(archive, blocks[n], n in refused))
  }

  /** An exported block whose access has no key: the assertion about it ends the extraction. */
  predicate IsKeyless(archive: Archive, block: BlockAccess) { block.id in archive.rows && block.key.None? }

  /** The part of the loop that follows the lookup of a block's key. */
  method ExtractBlock(archive: Archive, block: BlockAccess, refused: bool, fd: OutputFile)
    returns (reports: seq<Report>)
    requires !IsKeyless(archive, block)
    modifies fd
    ensures fd.content == if refused
            then old(fd.content) else Overwritten(old(fd.content), block.offset, Written(archive, block))
    ensures reports == BlockReports(archive, block, refused)
  {
    if block.id !in archive.rows { return [Missing(block.id)]; }
    var clear := archive.decrypt(block.key.value, archive.rows[block.id]);
    if clear.None? { return [Undecipherable(block.id)]; }
    if refused { return [NotWritten(block.id)]; }
    if fd.cursor != block.offset { fd.Seek(block.offset); }
    if block.size < |clear.value| {
      fd.Write(clear.value[..block.size]);
    } else {
      fd.Write(clear.value);
    }
    reports := [];
  }

  /** `extract_file`: all blocks are written, unless the file cannot be opened or sized or a block is
      keyless; the latter two are not reported but raised. */
  method Extract(archive: Archive, manifest: FileManifest, faults: Faults, fd: OutputFile)
    returns (reports: seq<Report>, done: nat, raised: bool)
    requires fd.content == [] && fd.cursor == 0
    modifies fd
    ensures faults.open ==> fd.content == [] && reports == [ExtractingFile, NotOpened] && !raised
    ensures !faults.open && faults.truncate ==> fd.content == [] && reports == [ExtractingFile] && raised
    ensures !faults.open && !faults.truncate ==>
              && done <= |manifest.blocks| && (raised <==> done < |manifest.blocks|)
              && (forall i | 0 <= i < done :: !IsKeyless(archive, manifest.blocks[i]))
              && (done < |manifest.blocks| ==> IsKeyless(archive, manifest.blocks[done]))
              && fd.content == Extracted(archive, manifest.size, Effective(manifest.blocks[..done], faults.writes))
              && reports == [ExtractingFile] + Reports(archive, manifest.blocks[..done], faults.writes)
                            + LastReport(manifest, faults, done)
  {
    hide Reports, Extracted, Overwritten, BlockReports, Effective;
    if faults.open { return [ExtractingFile, NotOpened], 0, false; }
    if faults.truncate { return [ExtractingFile], 0, true; }
    ghost var blocks, refused := manifest.blocks, faults.writes;
    fd.Truncate(manifest.size);
    NothingYet(archive, manifest.size, refused);
    assert blocks[..0] == [];
    reports, done := [], 0;
    while done < |manifest.blocks| && !IsKeyless(archive, manifest.blocks[done])
      invariant done <= |blocks|
      invariant forall i | 0 <= i < done :: !IsKeyless(archive, blocks[i])
      invariant fd.content == Extracted(archive, manifest.size, Effective(blocks[..done], refused))
      invariant reports == Reports(archive, blocks[..done], refused)
    {
      OneMoreBlock(archive, manifest.size, blocks, refused, done);
      OneMoreReport(archive, blocks, refused, done);
      var more := ExtractBlock(archive, manifest.blocks[done], done in faults.writes, fd);
      reports := reports + ([Extracting(done)] + more);
      done := done + 1;
    }
    raised := done < |manifest.blocks|;
    reports := [ExtractingFile] + reports + LastReport(manifest, faults, done);
  }

  /** A keyless block is announced before it ends the extraction, and the file is not closed then. */
  function LastReport(manifest: FileManifest, faults: Faults, done: nat): seq<Report>
  {
    if done < |manifest.blocks| then [Extracting(done)] else if faults.close then [NotClosed] else []
  }

  lemma NothingYet(archive: Archive, size: nat, refused: set<nat>)
    ensures Padded([], size)[..size] == Extracted(archive, size, Effective([], refused))
            && Reports(archive, [], refused) == []
  {
  }

  lemma OneMoreBlock(archive: Archive, size: nat, blocks: seq<BlockAccess>, refused: set<nat>, n: nat)
    requires n < |blocks|
    ensures var before := Extracted(archive, size, Effective(blocks[..n], refused));
            Extracted(archive, size, Effective(blocks[..n + 1], refused))
            == if n in refused then before else Overwritten(before, blocks[n].offset, Written(archive, blocks[n]))
  {
    hide Written;
    var effective := Effective(blocks[..n + 1], refused);
    assert effective[..n] == Effective(blocks[..n], refused);
    assert effective[n] == if n in refused then blocks[n].(size := 0) else blocks[n];
  }

  lemma OneMoreReport(archive: Archive, blocks: seq<BlockAccess>, refused: set<nat>, n: nat)
    requires n < |blocks|
    ensures Reports(archive, blocks[..n + 1], refused)
         == Reports(archive, blocks[..n], refused) + ([Extracting(n)] + BlockReports(archive, blocks[n], n in refused))
  {
    hide BlockReports;
    assert blocks[..n + 1][..n] == blocks[..n];
  }

  // ---------- what the file holds ----------

  /** The block writes the byte at `k`. */
  ghost predicate Covers(archive: Archive, block: BlockAccess, k: nat)
  {
    block.offset <= k < block.offset + |Written(archive, block)|
  }

  ghost predicate IsLastWriter(archive: Archive, blocks: seq<BlockAccess>, k: nat, i: nat)
  {
    && i < |blocks| && Covers(archive, blocks[i], k)
    && forall j | i < j < |blocks| :: !Covers(archive, blocks[j], k)
  }

  lemma OverwrittenAt(content: Bytes, offset: nat, data: Bytes, k: nat)
    ensures var after := Overwritten(content, offset, data);
            && |after| == (if data != [] && |content| < offset + |data| then offset + |data| else |content|)
            && (k < |after| ==> after[k] == if offset <= k < offset + |data| then data[k - offset]
                                            else if k < |content| then content[k] else 0)
  {
  }

  /** Whatever the blocks: each byte comes from the last readable block that covers it, and is zero
      when no block does. */
  lemma {:induction false} LastWriterWins(archive: Archive, size: nat, blocks: seq<BlockAccess>, k: nat)
    requires k < |Extracted(archive, size, blocks)|
    ensures forall i: nat | IsLastWriter(archive, blocks, k, i) ::
              Extracted(archive, size, blocks)[k] == Written(archive, blocks[i])[k - blocks[i].offset]
    ensures (forall i | 0 <= i < |blocks| :: !Covers(archive, blocks[i], k)) ==>
              Extracted(archive, size, blocks)[k] == 0
  {
    hide Written, Overwritten;
    if blocks != [] {
      var n := |blocks| - 1;
      var before, last := Extracted(archive, size, blocks[..n]), blocks[n];
      OverwrittenAt(before, last.offset, Written(archive, last), k);
      if k < |before| {
        LastWriterWins(archive, size, blocks[..n], k);
      } else {
        NothingAfterEnd(archive, size, blocks[..n], k);
      }
      forall i: nat | IsLastWriter(archive, blocks, k, i)
        ensures Extracted(archive, size, blocks)[k] == Written(archive, blocks[i])[k - blocks[i].offset]
      {
        if i < n {
          assert !Covers(archive, blocks[n], k);
          assert IsLastWriter(archive, blocks[..n], k, i);
        }
      }
    }
  }

  lemma {:induction false} NothingAfterEnd(archive: Archive, size: nat, blocks: seq<BlockAccess>, k: nat)
    requires k >= |Extracted(archive, size, blocks)|
    ensures forall i | 0 <= i < |blocks| :: !Covers(archive, blocks[i], k)
  {
    hide Written, Overwritten;
    if blocks != [] {
      var n := |blocks| - 1;
      OverwrittenAt(Extracted(archive, size, blocks[..n]), blocks[n].offset, Written(archive, blocks[n]), k);
      NothingAfterEnd(archive, size, blocks[..n], k);
    }
  }

  /** Where a block that writes something ends. */
  ghost predicate EndsAt(archive: Archive, block: BlockAccess, end: nat)
  {
    Written(archive, block) != [] && end == block.offset + |Written(archive, block)|
  }

  /** The exact length: the greatest of the manifest's size and the ends of what is written. */
  lemma {:induction false} LengthIsLastEnd(archive: Archive, size: nat, blocks: seq<BlockAccess>)
    ensures |Extracted(archive, size, blocks)| >= size
    ensures forall i, end: nat | 0 <= i < |blocks| && EndsAt(archive, blocks[i], end) ::
              end <= |Extracted(archive, size, blocks)|
    ensures |Extracted(archive, size, blocks)| == size
            || exists i | 0 <= i < |blocks| :: EndsAt(archive, blocks[i], |Extracted(archive, size, blocks)|)
  {
    hide Written, Overwritten;
    if blocks != [] {
      var n := |blocks| - 1;
      var before := Extracted(archive, size, blocks[..n]);
      OverwrittenAt(before, blocks[n].offset, Written(archive, blocks[n]), 0);
      LengthIsLastEnd(archive, size, blocks[..n]);
      assert forall i | 0 <= i < n :: blocks[..n][i] == blocks[i];
      if |Extracted(archive, size, blocks)| == |before| && |before| != size {
        var i :| 0 <= i < n && EndsAt(archive, blocks[..n][i], |before|);
        assert EndsAt(archive, blocks[i], |before|);
      } else if |Extracted(archive, size, blocks)| != |before| {
        assert EndsAt(archive, blocks[n], |Extracted(archive, size, blocks)|);
      }
    }
  }

  // ---------- well-formed manifests ----------

  ghost predicate InRange(manifest: FileManifest)
  {
    forall i | 0 <= i < |manifest.blocks| :: manifest.blocks[i].offset + manifest.blocks[i].size <= manifest.size
  }

  predicate Disjoint(a: BlockAccess, b: BlockAccess)
  {
    a.offset + a.size <= b.offset || b.offset + b.size <= a.offset
  }

  ghost predicate NonOverlapping(blocks: seq<BlockAccess>)
  {
    forall i, j | 0 <= i < j < |blocks| :: Disjoint(blocks[i], blocks[j])
  }

  /** With blocks in range and apart, the file has the size of the manifest, each byte is that of the
      readable block that covers it, and every other byte is zero. */
  lemma FileIsItsBlocks(archive: Archive, manifest: FileManifest, k: nat)
    requires InRange(manifest) && NonOverlapping(manifest.blocks) && k < manifest.size
    ensures var content := Extracted(archive, manifest.size, manifest.blocks);
            && |content| == manifest.size
            && (forall block | block in manifest.blocks && Covers(archive, block, k) ::
                  content[k] == Written(archive, block)[k - block.offset])
            && ((forall block | block in manifest.blocks :: !Covers(archive, block, k)) ==> content[k] == 0)
  {
    hide Written, Extracted;
    var blocks := manifest.blocks;
    LengthIsLastEnd(archive, manifest.size, blocks);
    LastWriterWins(archive, manifest.size, blocks, k);
    forall block | block in blocks && Covers(archive, block, k)
      ensures Extracted(archive, manifest.size, blocks)[k] == Written(archive, block)[k - block.offset]
    {
      var i :| 0 <= i < |blocks| && blocks[i] == block;
      forall j | i < j < |blocks| ensures !Covers(archive, blocks[j], k) {
        assert Disjoint(blocks[i], blocks[j]);
      }
      assert IsLastWriter(archive, blocks, k, i);
    }
  }

  /** Refused writes do not push other blocks out of range or over each other. */
  lemma RefusalsKeepShape(archive: Archive, manifest: FileManifest, refused: set<nat>, i: nat, k: nat)
    requires InRange(manifest) && NonOverlapping(manifest.blocks)
    ensures var effective := manifest.(blocks := Effective(manifest.blocks, refused));
            && InRange(effective) && NonOverlapping(effective.blocks)
            && (i < |manifest.blocks| ==>
                  (Covers(archive, effective.blocks[i], k)
                   <==> (i !in refused && Covers(archive, manifest.blocks[i], k))))
  {
    var effective := Effective(manifest.blocks, refused);
    forall a, b | 0 <= a < b < |effective| ensures Disjoint(effective[a], effective[b]) {
      assert Disjoint(manifest.blocks[a], manifest.blocks[b]);
    }
  }

  /** The order in which such blocks are written does not matter. */
  lemma OrderDoesNotMatter(archive: Archive, manifest: FileManifest, other: FileManifest)
    requires InRange(manifest) && NonOverlapping(manifest.blocks)
    requires InRange(other) && NonOverlapping(other.blocks)
    requires manifest.size == other.size && forall block :: block in manifest.blocks <==> block in other.blocks
    ensures Extracted(archive, manifest.size, manifest.blocks) == Extracted(archive, other.size, other.blocks)
  {
    hide Written, Extracted, InRange, NonOverlapping;
    var a, b := Extracted(archive, manifest.size, manifest.blocks), Extracted(archive, other.size, other.blocks);
    SizeIsExact(archive, manifest);
    SizeIsExact(archive, other);
    forall k | 0 <= k < manifest.size ensures a[k] == b[k] {
      FileIsItsBlocks(archive, manifest, k);
      FileIsItsBlocks(archive, other, k);
    }
  }

  lemma SizeIsExact(archive: Archive, manifest: FileManifest)
    requires InRange(manifest)
    ensures |Extracted(archive, manifest.size, manifest.blocks)| == manifest.size
  {
    LengthIsLastEnd(archive, manifest.size, manifest.blocks);
  }

  // ---------- the same without `Written` ----------

  /** The block is in the export and its key opens it. */
  predicate IsReadable(archive: Archive, block: BlockAccess)
  {
    && block.id in archive.rows && block.key.Some?
    && archive.decrypt(block.key.value, archive.rows[block.id]).Some?
  }

  function Clear(archive: Archive, block: BlockAccess): Bytes
    requires IsReadable(archive, block)
  {
    archive.decrypt(block.key.value, archive.rows[block.id]).value
  }

  /** `k` is within the block's claim and within its clear data. */
  predicate Reaches(archive: Archive, block: BlockAccess, k: nat)
  {
    && IsReadable(archive, block)
    && block.offset <= k < block.offset + block.size && k < block.offset + |Clear(archive, block)|
  }

  lemma WrittenIsClear(archive: Archive, block: BlockAccess, k: nat)
    ensures Covers(archive, block, k) <==> Reaches(archive, block, k)
    ensures Reaches(archive, block, k) ==>
              Written(archive, block)[k - block.offset] == Clear(archive, block)[k - block.offset]
  {
  }

  /** For any blocks: a byte is that of the clear data of the last block that reaches it, and zero when
      none does. */
  lemma FileIsClearData(archive: Archive, size: nat, blocks: seq<BlockAccess>, k: nat)
    requires k < |Extracted(archive, size, blocks)|
    ensures forall i | 0 <= i < |blocks| && Reaches(archive, blocks[i], k)
                       && (forall j | i < j < |blocks| :: !Reaches(archive, blocks[j], k)) ::
              Extracted(archive, size, blocks)[k] == Clear(archive, blocks[i])[k - blocks[i].offset]
    ensures (forall i | 0 <= i < |blocks| :: !Reaches(archive, blocks[i], k)) ==>
              Extracted(archive, size, blocks)[k] == 0
  {
    hide Written, Extracted, Covers;
    LastWriterWins(archive, size, blocks, k);
    forall i | 0 <= i < |blocks|
      ensures Covers(archive, blocks[i], k) <==> Reaches(archive, blocks[i], k)
    {
      WrittenIsClear(archive, blocks[i], k);
    }
    forall i | 0 <= i < |blocks| && Reaches(archive, blocks[i], k)
               && (forall j | i < j < |blocks| :: !Reaches(archive, blocks[j], k))
      ensures Extracted(archive, size, blocks)[k] == Clear(archive, blocks[i])[k - blocks[i].offset]
    {
      WrittenIsClear(archive, blocks[i], k);
      assert IsLastWriter(archive, blocks, k, i);
    }
  }

  /** With blocks in range and apart, as `FileIsItsBlocks`: the clear data where there is some, zero
      elsewhere. */
  lemma FileOfApartBlocks(archive: Archive, manifest: FileManifest, k: nat)
    requires InRange(manifest) && NonOverlapping(manifest.blocks) && k < manifest.size
    ensures var content := Extracted(archive, manifest.size, manifest.blocks);
            && |content| == manifest.size
            && (forall block | block in manifest.blocks && Reaches(archive, block, k) ::
                  content[k] == Clear(archive, block)[k - block.offset])
            && ((forall block | block in manifest.blocks :: !Reaches(archive, block, k)) ==> content[k] == 0)
  {
    hide Written, Extracted, Covers, InRange, NonOverlapping;
    FileIsItsBlocks(archive, manifest, k);
    forall block | block in manifest.blocks
      ensures Covers(archive, block, k) <==> Reaches(archive, block, k)
    {
      WrittenIsClear(archive, block, k);
    }
    var content := Extracted(archive, manifest.size, manifest.blocks);
    forall block | block in manifest.blocks && Reaches(archive, block, k)
      ensures content[k] == Clear(archive, block)[k - block.offset]
    {
      WrittenIsClear(archive, block, k);
    }
  }

  /** What is reported: a block that is not in the export, one that its key does not open, one that the
      file system refuses, each exactly when there is such a block. */
  lemma {:induction false} ReportsMean(archive: Archive, blocks: seq<BlockAccess>, refused: set<nat>, id: BlockId)
    ensures var reports := Reports(archive, blocks, refused);
            && (Missing(id) in reports <==> exists i | 0 <= i < |blocks| :: blocks[i].id == id && id !in archive.rows)
            && (Undecipherable(id) in reports <==>
                  exists i | 0 <= i < |blocks| ::
                    blocks[i].id == id && id in archive.rows && !IsReadable(archive, blocks[i]))
            && (NotWritten(id) in reports <==>
                  exists i | 0 <= i < |blocks| :: blocks[i].id == id && IsReadable(archive, blocks[i]) && i in refused)
  {
    if blocks != [] {
      var n := |blocks| - 1;
      ReportsMean(archive, blocks[..n], refused, id);
      assert forall i | 0 <= i < n :: blocks[..n][i] == blocks[i];
    }
  }

  /** Every block is announced, in order. */
  lemma {:induction false} ReportsAnnounceAll(archive: Archive, blocks: seq<BlockAccess>, refused: set<nat>, i: nat)
    ensures Extracting(i) in Reports(archive, blocks, refused) <==> i < |blocks|
  {
    if blocks != [] { ReportsAnnounceAll(archive, blocks[..|blocks| - 1], refused, i); }
  }
}
