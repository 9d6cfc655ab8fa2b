/** Tables keyed by an ever growing sequential id, as the server stores vlob atoms and blocks and
    as the exporter copies them: selection by id, batches, and the prefixes a resumed copy sees. */
module SequentialRows {

  datatype Row<P> = Row(sequentialId: nat, createdOn: int, size: nat, payload: P)

  predicate Ascending<P>(rows: seq<Row<P>>)
  {
    && (forall i | 0 <= i < |rows| :: 1 <= rows[i].sequentialId)
    && (forall i, j | 0 <= i < j < |rows| :: rows[i].sequentialId < rows[j].sequentialId)
  }

  ghost predicate HasId<P>(rows: seq<Row<P>>, id: nat)
  {
    exists i | 0 <= i < |rows| :: rows[i].sequentialId == id
  }

  /** Rows whose id does not exceed `marker`. */
  function UpTo<P>(rows: seq<Row<P>>, marker: nat): seq<Row<P>>
  {
    if rows == [] then []
    else (if rows[0].sequentialId <= marker then [rows[0]] else []) + UpTo(rows[1..], marker)
  }

  /** Rows whose id exceeds `marker`. */
  function After<P>(rows: seq<Row<P>>, marker: nat): seq<Row<P>>
  {
    if rows == [] then []
    else (if rows[0].sequentialId > marker then [rows[0]] else []) + After(rows[1..], marker)
  }

  /** The backend's batch query: ids above the marker, in order, at most `batchSize` of them. */
  function NextBatch<P>(rows: seq<Row<P>>, marker: nat, batchSize: nat): seq<Row<P>>
  {
    var candidates := After(rows, marker);
    if |candidates| <= batchSize then candidates else candidates[..batchSize]
  }

  /** `SELECT MAX(sequential_id)`, with 0 standing for the empty table. */
  function MaxId<P>(rows: seq<Row<P>>): nat
  {
    if rows == [] then 0
    else
      var rest := MaxId(rows[1..]);
      if rows[0].sequentialId > rest then rows[0].sequentialId else rest
  }

  /** `SELECT SUM(size)`, with 0 standing for the empty table. */
  function SumSizes<P>(rows: seq<Row<P>>): nat
  {
    if rows == [] then 0 else rows[0].size + SumSizes(rows[1..])
  }

  /** Drops the rows of a batch that lie above the bound; batches below it are left alone. */
  function CutAtBound<P>(batch: seq<Row<P>>, bound: nat): seq<Row<P>>
  {
    if batch != [] && batch[|batch| - 1].sequentialId > bound then UpTo(batch, bound) else batch
  }

  // ---------- selections are prefixes and suffixes of an ascending table ----------

  /** The first `n` rows are those at or below the marker. */
  ghost predicate SplitsAt<P>(rows: seq<Row<P>>, marker: nat, n: nat)
  {
    && n <= |rows|
    && (forall i | 0 <= i < n :: rows[i].sequentialId <= marker)
    && (forall i | n <= i < |rows| :: marker < rows[i].sequentialId)
  }

  lemma {:induction false} SelectionsSplit<P>(rows: seq<Row<P>>, marker: nat, n: nat)
    requires SplitsAt(rows, marker, n)
    ensures UpTo(rows, marker) == rows[..n]
    ensures After(rows, marker) == rows[n..]
  {
    if rows != [] {
      var rest := rows[1..];
      if n == 0 {
        SelectionsSplit(rest, marker, 0);
      } else {
        SelectionsSplit(rest, marker, n - 1);
        assert [rows[0]] + rest[..n - 1] == rows[..n];
        assert rest[n - 1..] == rows[n..];
      }
    }
  }

  lemma {:induction false} AscendingSplits<P>(rows: seq<Row<P>>, marker: nat) returns (n: nat)
    requires Ascending(rows)
    ensures SplitsAt(rows, marker, n)
    ensures UpTo(rows, marker) == rows[..n]
    ensures After(rows, marker) == rows[n..]
  {
    n := 0;
    while n < |rows| && rows[n].sequentialId <= marker
      invariant n <= |rows|
      invariant forall i | 0 <= i < n :: rows[i].sequentialId <= marker
    {
      n := n + 1;
    }
    SelectionsSplit(rows, marker, n);
  }

  lemma AscendingSlice<P>(rows: seq<Row<P>>, from: nat, to: nat)
    requires Ascending(rows) && from <= to <= |rows|
    ensures Ascending(rows[from..to])
  {
  }

  lemma {:induction false} UpToConcat<P>(a: seq<Row<P>>, b: seq<Row<P>>, marker: nat)
    ensures UpTo(a + b, marker) == UpTo(a, marker) + UpTo(b, marker)
  {
    if a == [] {
      assert a + b == b;
    } else {
      assert (a + b)[1..] == a[1..] + b;
      UpToConcat(a[1..], b, marker);
      var head: seq<Row<P>> := if a[0].sequentialId <= marker then [a[0]] else [];
      assert head + (UpTo(a[1..], marker) + UpTo(b, marker)) == (head + UpTo(a[1..], marker)) + UpTo(b, marker);
    }
  }

  lemma {:induction false} SumSizesConcat<P>(a: seq<Row<P>>, b: seq<Row<P>>)
    ensures SumSizes(a + b) == SumSizes(a) + SumSizes(b)
  {
    if a == [] {
      assert a + b == b;
    } else {
      assert (a + b)[1..] == a[1..] + b;
      SumSizesConcat(a[1..], b);
    }
  }

  lemma {:induction false} MaxIdIsLast<P>(rows: seq<Row<P>>)
    requires Ascending(rows)
    ensures MaxId(rows) == if rows == [] then 0 else rows[|rows| - 1].sequentialId
  {
    if rows != [] {
      var rest := rows[1..];
      assert forall i | 0 <= i < |rest| :: rest[i] == rows[i + 1];
      MaxIdIsLast(rest);
      if rest != [] {
        assert rest[|rest| - 1] == rows[|rows| - 1];
      }
    }
  }

  /** The maximum names a row when there is one: a bound computed as a maximum is 0 or a real id. */
  lemma {:induction false} MaxIdIsPresent<P>(rows: seq<Row<P>>)
    ensures forall i | 0 <= i < |rows| :: rows[i].sequentialId <= MaxId(rows)
    ensures MaxId(rows) == 0 || HasId(rows, MaxId(rows))
  {
    if rows != [] {
      var rest := rows[1..];
      MaxIdIsPresent(rest);
      forall i | 0 <= i < |rows| ensures rows[i].sequentialId <= MaxId(rows) {
        if i > 0 { assert rows[i] == rest[i - 1]; }
      }
      if MaxId(rows) == rows[0].sequentialId {
        assert HasId(rows, MaxId(rows));
      } else if MaxId(rows) != 0 {
        var i :| 0 <= i < |rest| && rest[i].sequentialId == MaxId(rest);
        assert rows[i + 1].sequentialId == MaxId(rows);
      }
    }
  }

  // ---------- what one batch does to a partial copy ----------

  /** A table that holds exactly the rows up to its own maximum id, none above `bound`. */
  ghost predicate IsCopyUpTo<P>(copy: seq<Row<P>>, rows: seq<Row<P>>, bound: nat)
  {
    copy == UpTo(rows, MaxId(copy)) && MaxId(copy) <= bound
  }

  lemma PrefixIsCopy<P>(rows: seq<Row<P>>, n: nat)
    requires Ascending(rows) && n <= |rows|
    ensures Ascending(rows[..n])
    ensures UpTo(rows, MaxId(rows[..n])) == rows[..n]
    ensures 0 < n ==> MaxId(rows[..n]) == rows[n - 1].sequentialId
  {
    AscendingSlice(rows, 0, n);
    assert rows[0..n] == rows[..n];
    MaxIdIsLast(rows[..n]);
    var marker := if n == 0 then 0 else rows[n - 1].sequentialId;
    assert SplitsAt(rows, marker, n);
    SelectionsSplit(rows, marker, n);
  }

  lemma SelectionIsCopy<P>(rows: seq<Row<P>>, marker: nat)
    requires Ascending(rows)
    ensures Ascending(UpTo(rows, marker))
    ensures IsCopyUpTo(UpTo(rows, marker), rows, marker)
    ensures HasId(rows, marker) ==> MaxId(UpTo(rows, marker)) == marker
  {
    var n := AscendingSplits(rows, marker);
    PrefixIsCopy(rows, n);
    if HasId(rows, marker) {
      var k :| 0 <= k < |rows| && rows[k].sequentialId == marker;
      assert k <= n - 1;
    }
  }

  lemma CutIsUpTo<P>(batch: seq<Row<P>>, bound: nat)
    requires Ascending(batch)
    ensures CutAtBound(batch, bound) == UpTo(batch, bound)
  {
    if batch != [] && batch[|batch| - 1].sequentialId <= bound {
      SelectionsSplit(batch, bound, |batch|);
    }
  }

  /** A batch is the first rows above the marker, as many as there are and as the size allows. */
  lemma NextBatchIsFirst<P>(rows: seq<Row<P>>, marker: nat, batchSize: nat)
    requires Ascending(rows)
    ensures var batch := NextBatch(rows, marker, batchSize);
            && |batch| <= batchSize
            && (forall i | 0 <= i < |batch| :: batch[i] in rows && marker < batch[i].sequentialId)
            && (forall row | row in rows && marker < row.sequentialId ::
                  row in batch || (|batch| == batchSize && forall b | b in batch :: b.sequentialId < row.sequentialId))
  {
    var n := AscendingSplits(rows, marker);
    var batch := NextBatch(rows, marker, batchSize);
    assert batch == rows[n..n + |batch|];
    forall row | row in rows && marker < row.sequentialId
      ensures row in batch || (|batch| == batchSize && forall b | b in batch :: b.sequentialId < row.sequentialId)
    {
      var i :| 0 <= i < |rows| && rows[i] == row;
      if i < n + |batch| { assert batch[i - n] == row; }
    }
  }

  lemma NextBatchIsRun<P>(rows: seq<Row<P>>, marker: nat, batchSize: nat) returns (from: nat, size: nat)
    requires Ascending(rows) && 0 < batchSize
    ensures SplitsAt(rows, marker, from) && from + size <= |rows|
    ensures NextBatch(rows, marker, batchSize) == rows[from..from + size]
    ensures from < |rows| ==> 0 < size
  {
    from := AscendingSplits(rows, marker);
    size := if |rows| - from <= batchSize then |rows| - from else batchSize;
    assert rows[from..][..size] == rows[from..from + size];
  }

  lemma CutIsShorterRun<P>(rows: seq<Row<P>>, from: nat, size: nat, bound: nat) returns (to: nat)
    requires Ascending(rows) && from + size <= |rows|
    ensures from <= to <= from + size
    ensures CutAtBound(rows[from..from + size], bound) == rows[from..to]
    ensures forall i | from <= i < to :: rows[i].sequentialId <= bound
    ensures 0 < size && rows[from].sequentialId <= bound ==> from < to
  {
    hide CutAtBound, Ascending;
    var whole := rows[from..from + size];
    AscendingSlice(rows, from, from + size);
    CutIsUpTo(whole, bound);
    var n := AscendingSplits(whole, bound);
    to := from + n;
    assert whole[..n] == rows[from..to];
    forall i | from <= i < to ensures rows[i].sequentialId <= bound {
      assert rows[i] == whole[i - from];
    }
    if 0 < size { assert whole[0] == rows[from]; }
  }

  /** A cut batch is the run of rows from the first one above the marker to the last one the batch
      size and the bound allow. */
  lemma CutBatchIsRun<P>(rows: seq<Row<P>>, marker: nat, bound: nat, batchSize: nat)
    returns (from: nat, to: nat)
    requires Ascending(rows) && 0 < batchSize
    ensures SplitsAt(rows, marker, from)
    ensures from <= to <= |rows|
    ensures CutAtBound(NextBatch(rows, marker, batchSize), bound) == rows[from..to]
    ensures forall i | from <= i < to :: rows[i].sequentialId <= bound
    ensures from < |rows| && rows[from].sequentialId <= bound ==> from < to
  {
    hide CutAtBound, NextBatch, Ascending, SplitsAt;
    var size;
    from, size := NextBatchIsRun(rows, marker, batchSize);
    to := CutIsShorterRun(rows, from, size, bound);
  }

  lemma RunExtendsCopy<P>(rows: seq<Row<P>>, marker: nat, from: nat, to: nat)
    requires Ascending(rows) && SplitsAt(rows, marker, from) && from < to <= |rows|
    ensures MaxId(rows[from..to]) == rows[to - 1].sequentialId
    ensures UpTo(rows, marker) + rows[from..to] == UpTo(rows, rows[to - 1].sequentialId)
    ensures MaxId(UpTo(rows, marker) + rows[from..to]) == rows[to - 1].sequentialId
  {
    hide Ascending, SplitsAt, UpTo, MaxId;
    SelectionsSplit(rows, marker, from);
    PrefixIsCopy(rows, to);
    assert rows[..from] + rows[from..to] == rows[..to];
    AscendingSlice(rows, from, to);
    MaxIdIsLast(rows[from..to]);
  }

  /** One iteration of the copy loop: as long as the bound names a real row, the cut batch is never
      empty, raises the marker without passing the bound, and turns the copy up to the old marker
      into the copy up to the new one, so no row is skipped or written twice. */
  lemma BatchExtendsCopy<P>(rows: seq<Row<P>>, marker: nat, bound: nat, batchSize: nat)
    requires Ascending(rows) && HasId(rows, bound) && marker < bound && 0 < batchSize
    ensures NextBatch(rows, marker, batchSize) != []
    ensures var batch := CutAtBound(NextBatch(rows, marker, batchSize), bound);
            && batch != []
            && marker < MaxId(batch) == batch[|batch| - 1].sequentialId <= bound
            && (forall i | 0 <= i < |batch| :: marker < batch[i].sequentialId)
            && IsCopyUpTo(UpTo(rows, marker) + batch, rows, bound)
            && MaxId(UpTo(rows, marker) + batch) == MaxId(batch)
  {
    var from, to := CutBatchIsRun(rows, marker, bound, batchSize);
    FirstAboveIsWithinBound(rows, marker, bound, from);
    assert marker < rows[to - 1].sequentialId <= bound;
    RunExtendsCopy(rows, marker, from, to);
    RunIsAbove(rows, marker, from, to);
    assert rows[from..to][to - from - 1] == rows[to - 1];
  }

  lemma FirstAboveIsWithinBound<P>(rows: seq<Row<P>>, marker: nat, bound: nat, from: nat)
    requires Ascending(rows) && HasId(rows, bound) && marker < bound && SplitsAt(rows, marker, from)
    ensures from < |rows| && rows[from].sequentialId <= bound
  {
  }

  lemma RunIsAbove<P>(rows: seq<Row<P>>, marker: nat, from: nat, to: nat)
    requires SplitsAt(rows, marker, from) && from <= to <= |rows|
    ensures forall i | 0 <= i < |rows[from..to]| :: marker < rows[from..to][i].sequentialId
  {
  }

  /** Exactly when a cut batch comes out empty: no row lies above the marker and at or below the
      bound. The marker recomputed from such a batch would fall back to 0. */
  lemma CutBatchEmptyIff<P>(rows: seq<Row<P>>, marker: nat, bound: nat, batchSize: nat)
    requires Ascending(rows) && 0 < batchSize
    ensures CutAtBound(NextBatch(rows, marker, batchSize), bound) == []
       <==> forall i | 0 <= i < |rows| :: rows[i].sequentialId <= marker || bound < rows[i].sequentialId
  {
    var from, to := CutBatchIsRun(rows, marker, bound, batchSize);
    if from < to {
      assert marker < rows[from].sequentialId <= bound;
    }
  }

  /** Rows added later, with higher ids, leave every selection up to an existing id unchanged. */
  lemma AppendKeepsCopy<P>(rows: seq<Row<P>>, more: seq<Row<P>>, marker: nat)
    requires Ascending(rows + more)
    requires marker == 0 || HasId(rows, marker)
    ensures UpTo(rows + more, marker) == UpTo(rows, marker)
  {
    var all := rows + more;
    forall i | 0 <= i < |more| ensures marker < more[i].sequentialId {
      assert more[i] == all[|rows| + i];
      if marker != 0 {
        var k :| 0 <= k < |rows| && rows[k].sequentialId == marker;
        assert all[k].sequentialId < all[|rows| + i].sequentialId;
      }
    }
    UpToConcat(rows, more, marker);
    SelectionsSplit(more, marker, 0);
  }
}
