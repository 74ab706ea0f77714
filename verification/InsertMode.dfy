/** The insertion of a series of rows by one statement: the first rows are collected for a segment
    that stays open for writing, and when there turn out to be many, the rest go to a writer that
    makes finished segments. */
module InsertMode {
  import opened MutableSegment
  import opened Options

  // ---------- The index ----------

  /** The first mutable segment still open for writing, or the number of segments. */
  function FirstOpen(segments: seq<Segment>): (i: nat)
    ensures i <= |segments|
    ensures i < |segments| ==> segments[i].Open()
    ensures forall j :: 0 <= j < i ==> !segments[j].Open()
  {
    if segments == [] || segments[0].Open() then 0 else 1 + FirstOpen(segments[1..])
  }

  /** A segment with rows added closes when it then has as many as configured. */
  function Grown(s: Segment, ctids: seq<Ctid>, limit: nat): Segment
    requires s.Open()
  {
    var maxDoc := s.maxDoc + |ctids|;
    Mutable(WithAdds(s.log, ctids), maxDoc, s.deleted, limit <= maxDoc)
  }

  /** The index with rows added to its first open segment, or to a new one, which stays open. */
  function WithRows(segments: seq<Segment>, ctids: seq<Ctid>, limit: nat): seq<Segment> {
    var i := FirstOpen(segments);
    if i < |segments| then segments[i := Grown(segments[i], ctids, limit)]
    else segments + [Mutable(WithAdds([], ctids), |ctids|, 0, false)]
  }

  /** What every mutable segment keeps: its counts are right, it never has more than twice the
      configured number of rows, and while it is open at most that number. It can have exactly that
      number and be open: when it was made with so many. */
  ghost predicate SegmentOk(s: Segment, limit: nat) {
    s.Mutable? ==> Counted(s) && s.maxDoc <= 2 * limit && (s.Open() ==> s.maxDoc <= limit)
  }

  ghost predicate AllOk(segments: seq<Segment>, limit: nat) {
    forall i :: 0 <= i < |segments| ==> SegmentOk(segments[i], limit)
  }

  /** The rows are added once, to one segment, and nothing else changes. A segment that was open stays
      open exactly while it has fewer rows than configured; a new one is open. */
  lemma WithRowsFacts(segments: seq<Segment>, ctids: seq<Ctid>, limit: nat)
    requires AllOk(segments, limit) && |ctids| <= limit
    ensures AllOk(WithRows(segments, ctids, limit), limit)
    ensures var i, r := FirstOpen(segments), WithRows(segments, ctids, limit);
            && i < |r| && r[i].Mutable?
            && Added(r[i].log) == (if i < |segments| then Added(segments[i].log) else []) + ctids
            && (forall j :: 0 <= j < |segments| && j != i ==> r[j] == segments[j])
            && |r| == |segments| + (if i < |segments| then 0 else 1)
            && (i < |segments| ==>
                  && segments[i].log <= r[i].log && r[i].deleted == segments[i].deleted
                  && (r[i].Open() <==> |Added(segments[i].log)| + |ctids| < limit))
            && (i == |segments| ==> r[i].Open() && r[i].deleted == 0)
  {
    var i := FirstOpen(segments);
    if i < |segments| {
      assert SegmentOk(segments[i], limit);
      AddedGrows(segments[i].log, ctids);
      AddsComeLast(segments[i].log, ctids);
    } else {
      AddedGrows([], ctids);
    }
  }

  /** A mutable segment that is full but still open was made so by `WithRows` as a new segment. */
  lemma FullButOpen(segments: seq<Segment>, ctids: seq<Ctid>, limit: nat)
    requires AllOk(segments, limit)
    ensures var i, r := FirstOpen(segments), WithRows(segments, ctids, limit);
            r[i].Open() && limit <= r[i].maxDoc <==> i == |segments| && limit <= |ctids|
  {
  }

  /** Removing rows changes one log and one count, whether the segment is open or not. */
  function WithoutRows(segments: seq<Segment>, i: nat, ctids: seq<Ctid>): seq<Segment>
    requires i < |segments| && segments[i].Mutable?
  {
    var s := segments[i];
    segments[i := Mutable(WithRemoves(s.log, ctids), s.maxDoc, s.deleted + |ctids|, s.frozen)]
  }

  lemma WithoutRowsFacts(segments: seq<Segment>, i: nat, ctids: seq<Ctid>, limit: nat)
    requires AllOk(segments, limit) && i < |segments| && segments[i].Mutable?
    requires Proper(segments[i].log) && Distinct(ctids) && forall c :: c in ctids ==> c in Replay(segments[i].log)
    ensures AllOk(WithoutRows(segments, i, ctids), limit) && Proper(WithoutRows(segments, i, ctids)[i].log)
    ensures forall c :: c in Replay(WithoutRows(segments, i, ctids)[i].log) <==>
                        c in Replay(segments[i].log) && c !in ctids
  {
    assert SegmentOk(segments[i], limit);
    AddedStays(segments[i].log, ctids);
    ReplayRemoves(segments[i].log, ctids);
  }

  /** The segments of an index; `rowLimit` is the configured number of rows of a mutable segment. */
  class Index {
    const rowLimit: Option<nat>
    var segments: seq<Segment>

    constructor (rowLimit: Option<nat>)
      requires rowLimit != Some(0)
      ensures Valid() && this.rowLimit == rowLimit && segments == []
    {
      this.rowLimit, segments := rowLimit, [];
    }

    ghost predicate Valid()
      reads this
    {
      rowLimit.Some? ==> 0 < rowLimit.value && AllOk(segments, rowLimit.value)
    }

    method AddMutable(ctids: seq<Ctid>) returns (created: bool)
      requires Valid() && rowLimit.Some? && |ctids| <= rowLimit.value
      modifies this
      ensures Valid() && segments == WithRows(old(segments), ctids, rowLimit.value)
      ensures created <==> forall j :: 0 <= j < |old(segments)| ==> !old(segments)[j].Open()
    {
      WithRowsFacts(segments, ctids, rowLimit.value);
      var i := 0;
      while i < |segments| && !segments[i].Open()
        invariant i <= |segments|
        invariant forall j :: 0 <= j < i ==> !segments[j].Open()
      {
        i := i + 1;
      }
      assert i == FirstOpen(segments);
      created := i == |segments|;
      if created {
        segments := segments + [Mutable(WithAdds([], ctids), |ctids|, 0, false)];
      } else {
        segments := segments[i := Grown(segments[i], ctids, rowLimit.value)];
      }
    }

    method AddImmutable(ctids: seq<Ctid>)
      requires Valid()
      modifies this
      ensures Valid() && segments == old(segments) + [Immutable(ctids)]
    {
      segments := segments + [Immutable(ctids)];
    }
  }

  /** Two rows at once fill a new segment for two rows, and it stays open. */
  method FullSegmentStaysOpen() returns (index: Index)
    ensures index.rowLimit == Some(2) && |index.segments| == 1
    ensures index.segments[0].Open() && index.segments[0].maxDoc == 2 && Added(index.segments[0].log) == [10, 11]
  {
    index := new Index(Some(2));
    WithRowsFacts(index.segments, [10, 11], 2);
    var created := index.AddMutable([10, 11]);
  }

  // ---------- The insertion ----------

  /** A row to insert; `fills` says that with it the writer's memory is used up. */
  datatype Row = Row(ctid: Ctid, keyIsNull: bool, fills: bool)

  datatype Mode =
    | Writing(pending: seq<Ctid>)
    | Collecting(ctids: seq<Ctid>)
    | Completed

  datatype Outcome = Inserted | KeyIsNull | AlreadyCompleted

  /** Finished segments, none of them without rows. */
  ghost predicate AllFinished(segments: seq<Segment>) {
    forall i :: 0 <= i < |segments| ==> segments[i].Immutable? && segments[i].ctids != []
  }

  /** The rows of finished segments, in order. */
  function Rows(segments: seq<Segment>): seq<Ctid> {
    if segments == [] then []
    else
      var last := segments[|segments| - 1];
      Rows(segments[..|segments| - 1]) + if last.Immutable? then last.ctids else []
  }

  function Ctids(rows: seq<Row>): (r: seq<Ctid>)
    ensures |r| == |rows| && forall i :: 0 <= i < |r| ==> r[i] == rows[i].ctid
  {
    seq(|rows|, i requires 0 <= i < |rows| => rows[i].ctid)
  }

  /** The first rows of a series, for a mutable segment, and the others. */
  function First(rows: seq<Row>, limit: nat): seq<Row> {
    if |rows| < limit then rows else rows[..limit]
  }

  function Rest(rows: seq<Row>, limit: nat): seq<Row> {
    if |rows| < limit then [] else rows[limit..]
  }

  /** The segments a writer finishes on the way: one with each row that uses up its memory. */
  function Finished(rows: seq<Row>): seq<Segment> {
    if rows == [] then []
    else
      var front, last := rows[..|rows| - 1], rows[|rows| - 1];
      Finished(front) + if last.fills then [Immutable(Unfinished(front) + [last.ctid])] else []
  }

  /** The rows it has written since. */
  function Unfinished(rows: seq<Row>): seq<Ctid> {
    if rows == [] || rows[|rows| - 1].fills then []
    else Unfinished(rows[..|rows| - 1]) + [rows[|rows| - 1].ctid]
  }

  /** The segment they make at the end, if there are any. */
  function Leftover(rows: seq<Row>): seq<Segment> {
    if Unfinished(rows) == [] then [] else [Immutable(Unfinished(rows))]
  }

  lemma RowsAppend(segments: seq<Segment>, ctids: seq<Ctid>)
    ensures Rows(segments + [Immutable(ctids)]) == Rows(segments) + ctids
  {
    assert (segments + [Immutable(ctids)])[..|segments|] == segments;
  }

  lemma OneMore(rows: seq<Row>, row: Row)
    ensures Finished(rows + [row]) ==
            if row.fills then Finished(rows) + [Immutable(Unfinished(rows) + [row.ctid])] else Finished(rows)
    ensures Unfinished(rows + [row]) == if row.fills then [] else Unfinished(rows) + [row.ctid]
    ensures Ctids(rows + [row]) == Ctids(rows) + [row.ctid]
  {
    assert (rows + [row])[..|rows|] == rows;
  }

  /** Finishing a segment moves the pending rows into it. */
  lemma RowsOneMore(segments: seq<Segment>, pending: seq<Ctid>, ctids: seq<Ctid>, c: Ctid)
    requires AllFinished(segments) && Rows(segments) + pending == ctids
    ensures Rows(segments) + (pending + [c]) == ctids + [c]
    ensures AllFinished(segments + [Immutable(pending + [c])])
    ensures Rows(segments + [Immutable(pending + [c])]) + [] == ctids + [c]
  {
    var written := Rows(segments);
    assert written + (pending + [c]) == (written + pending) + [c];
    RowsAppend(segments, pending + [c]);
  }

  ghost predicate WrittenInOrder(rows: seq<Row>) {
    AllFinished(Finished(rows)) && Rows(Finished(rows)) + Unfinished(rows) == Ctids(rows)
  }

  /** All rows written are, in order, in finished segments or pending. */
  lemma {:induction false} RowsAreFinished(rows: seq<Row>)
    ensures WrittenInOrder(rows)
  {
    if rows != [] {
      var front, last := rows[..|rows| - 1], rows[|rows| - 1];
      var all := front + [last];
      assert rows == all;
      RowsAreFinished(front);
      FinishedOneMore(front, last);
    }
  }

  lemma FinishedOneMore(rows: seq<Row>, row: Row)
    requires WrittenInOrder(rows)
    ensures WrittenInOrder(rows + [row])
  {
    OneMore(rows, row);
    RowsOneMore(Finished(rows), Unfinished(rows), Ctids(rows), row.ctid);
  }

  /** With the segment of those pending at the end, all rows are in finished segments. */
  lemma AllRowsAreFinished(rows: seq<Row>)
    ensures AllFinished(Finished(rows) + Leftover(rows)) && Rows(Finished(rows) + Leftover(rows)) == Ctids(rows)
  {
    RowsAreFinished(rows);
    if Unfinished(rows) == [] {
      assert Finished(rows) + Leftover(rows) == Finished(rows);
    } else {
      RowsAppend(Finished(rows), Unfinished(rows));
    }
  }

  /** Some of the segments, from the first on, have exactly `n` rows. */
  ghost predicate EndsAt(segments: seq<Segment>, n: nat) {
    exists m :: 0 < m <= |segments| && |Rows(segments[..m])| == n
  }

  lemma EndsAtPrefix(segments: seq<Segment>, n: nat)
    ensures EndsAt(segments, n) ==> n <= |Rows(segments)|
    ensures segments != [] ==> EndsAt(segments, |Rows(segments)|)
  {
    forall m | 0 < m <= |segments|
      ensures |Rows(segments[..m])| <= |Rows(segments)|
    {
      RowsOfPrefix(segments, m);
    }
    assert segments[..|segments|] == segments;
  }

  lemma EndsAtMore(segments: seq<Segment>, s: Segment, n: nat)
    ensures EndsAt(segments + [s], n) <==> EndsAt(segments, n) || |Rows(segments + [s])| == n
  {
    var all := segments + [s];
    assert forall m :: 0 <= m <= |segments| ==> all[..m] == segments[..m];
    assert all[..|all|] == all;
    if EndsAt(segments, n) {
      var m :| 0 < m <= |segments| && |Rows(segments[..m])| == n;
      assert |Rows(all[..m])| == n;
    }
  }

  lemma EndsWithPending(segments: seq<Segment>, pending: seq<Ctid>, ctids: seq<Ctid>, c: Ctid, n: nat)
    requires AllFinished(segments) && Rows(segments) + pending == ctids
    ensures EndsAt(segments, n) ==> n <= |ctids|
    ensures EndsAt(segments + [Immutable(pending + [c])], n) <==> EndsAt(segments, n) || n == |ctids| + 1
  {
    EndsAtPrefix(segments, n);
    RowsOneMore(segments, pending, ctids, c);
    EndsAtMore(segments, Immutable(pending + [c]), n);
  }

  /** A finished segment ends exactly where a row used up the memory. */
  lemma {:induction false} SegmentsEndWhereFull(rows: seq<Row>, j: nat)
    requires j < |rows|
    ensures rows[j].fills <==> EndsAt(Finished(rows), j + 1)
  {
    var front, last := rows[..|rows| - 1], rows[|rows| - 1];
    var all := front + [last];
    assert rows == all;
    RowsAreFinished(front);
    OneMore(front, last);
    EndsWithPending(Finished(front), Unfinished(front), Ctids(front), last.ctid, j + 1);
    if j < |front| {
      SegmentsEndWhereFull(front, j);
    }
  }

  lemma {:induction false} RowsOfPrefix(segments: seq<Segment>, m: nat)
    requires m <= |segments|
    ensures |Rows(segments[..m])| <= |Rows(segments)|
  {
    if m < |segments| {
      RowsOfPrefix(segments[..|segments| - 1], m);
      assert segments[..|segments| - 1][..m] == segments[..m];
    } else {
      assert segments[..m] == segments;
    }
  }

  /** The index once the first rows have gone to a mutable segment, and the rows for the writer. */
  function Base(before: seq<Segment>, rows: seq<Row>, limit: Option<nat>): seq<Segment> {
    if limit.None? then before else WithRows(before, Ctids(First(rows, limit.value)), limit.value)
  }

  function ForWriter(rows: seq<Row>, limit: Option<nat>): seq<Row> {
    if limit.None? then rows else Rest(rows, limit.value)
  }

  lemma RestGrows(rows: seq<Row>, limit: Option<nat>, row: Row)
    requires limit.Some? ==> limit.value <= |rows|
    ensures forall before :: Base(before, rows + [row], limit) == Base(before, rows, limit)
    ensures ForWriter(rows + [row], limit) == ForWriter(rows, limit) + [row]
  {
    if limit.Some? {
      assert First(rows + [row], limit.value) == First(rows, limit.value);
    }
  }

  /** What the index and the writer hold when rows have gone to the writer. */
  ghost predicate OnTheWay(before: seq<Segment>, segments: seq<Segment>, pending: seq<Ctid>, rows: seq<Row>, limit: Option<nat>) {
    && (limit.Some? ==> limit.value <= |rows|)
    && var written := ForWriter(rows, limit);
       pending == Unfinished(written) && segments == Base(before, rows, limit) + Finished(written)
  }

  /** What the index holds at the end. */
  ghost predicate AtTheEnd(before: seq<Segment>, segments: seq<Segment>, rows: seq<Row>, limit: Option<nat>) {
    var written := ForWriter(rows, limit);
    segments == Base(before, rows, limit) + (Finished(written) + Leftover(written))
  }

  lemma WriterGoesOn(before: seq<Segment>, segments: seq<Segment>, pending: seq<Ctid>, rows: seq<Row>, limit: Option<nat>, row: Row)
    requires OnTheWay(before, segments, pending, rows, limit)
    ensures if row.fills
            then OnTheWay(before, segments + [Immutable(pending + [row.ctid])], [], rows + [row], limit)
            else OnTheWay(before, segments, pending + [row.ctid], rows + [row], limit)
  {
    RestGrows(rows, limit, row);
    OneMore(ForWriter(rows, limit), row);
  }

  lemma WriterEnds(before: seq<Segment>, segments: seq<Segment>, pending: seq<Ctid>, rows: seq<Row>, limit: Option<nat>)
    requires OnTheWay(before, segments, pending, rows, limit)
    ensures AtTheEnd(before, if pending == [] then segments else segments + [Immutable(pending)], rows, limit)
  {
    var base, made := Base(before, rows, limit), Finished(ForWriter(rows, limit));
    assert made + [] == made && (base + made) + [Immutable(pending)] == base + (made + [Immutable(pending)]);
  }

  /** As many rows as configured, or fewer, all go to a mutable segment. */
  lemma OnlyMutable(before: seq<Segment>, rows: seq<Row>, limit: nat)
    requires |rows| <= limit
    ensures AtTheEnd(before, WithRows(before, Ctids(rows), limit), rows, Some(limit))
    ensures |rows| == limit ==> OnTheWay(before, WithRows(before, Ctids(rows), limit), [], rows, Some(limit))
  {
    assert First(rows, limit) == rows && Rest(rows, limit) == [];
  }

  lemma PlacedAtTheEnd(before: seq<Segment>, segments: seq<Segment>, rows: seq<Row>, limit: Option<nat>)
    requires AtTheEnd(before, segments, rows, limit)
    ensures Placed(before, segments, rows, limit)
  {
    var base, written := Base(before, rows, limit), ForWriter(rows, limit);
    AllRowsAreFinished(written);
    assert segments[|base|..] == Finished(written) + Leftover(written);
  }

  /** Where a series of rows ends up: the first of them in a mutable segment, the others in order in
      finished segments, each of which ends where the memory was used up or the series ends. */
  ghost predicate Placed(before: seq<Segment>, after: seq<Segment>, rows: seq<Row>, limit: Option<nat>) {
    var base, written := Base(before, rows, limit), ForWriter(rows, limit);
    && base <= after
    && after[|base|..] == Finished(written) + Leftover(written)
    && AllFinished(after[|base|..]) && Rows(after[|base|..]) == Ctids(written)
  }

  class InsertState {
    const index: Index
    var mode: Mode
    // the rows inserted so far, and the index before the first of them
    ghost var inserted: seq<Row>
    ghost const before: seq<Segment>

    ghost predicate Valid()
      reads this, index
    {
      && index.Valid()
      && match mode
         case Collecting(ctids) =>
           && index.rowLimit.Some? && ctids == Ctids(inserted) && |ctids| <= index.rowLimit.value
           && index.segments == before
         case Writing(pending) => OnTheWay(before, index.segments, pending, inserted, index.rowLimit)
         case Completed => AtTheEnd(before, index.segments, inserted, index.rowLimit)
    }

    constructor (index: Index)
      requires index.Valid()
      ensures Valid() && this.index == index && inserted == [] && before == index.segments
      ensures mode == if index.rowLimit.Some? then Collecting([]) else Writing([])
    {
      this.index, inserted, before := index, [], index.segments;
      mode := if index.rowLimit.Some? then Collecting([]) else Writing([]);
    }

    /** Puts what has been collected or written into the index. */
    method Cleanup()
      requires Valid() && mode != Completed
      modifies this`mode, index
      ensures Valid() && mode == Completed && inserted == old(inserted)
      ensures old(mode).Collecting? ==>
                index.segments == WithRows(old(index.segments), old(mode).ctids, index.rowLimit.value)
    {
      match mode {
        case Writing(pending) =>
          WriterEnds(before, index.segments, pending, inserted, index.rowLimit);
          if pending != [] {
            index.AddImmutable(pending);
          }
        case Collecting(ctids) =>
          OnlyMutable(before, inserted, index.rowLimit.value);
          var _ := index.AddMutable(ctids);
        case Completed =>
      }
      mode := Completed;
    }

    /** One row. When the limit has been reached, what was collected is put away, and this and all
        later rows go to a writer. */
    method Insert(row: Row) returns (outcome: Outcome)
      requires Valid()
      modifies this, index
      ensures Valid()
      ensures outcome == if old(mode) == Completed then AlreadyCompleted else if row.keyIsNull then KeyIsNull else Inserted
      ensures inserted == if outcome == Inserted then old(inserted) + [row] else old(inserted)
      ensures outcome != Inserted ==> mode == old(mode) && index.segments == old(index.segments)
      ensures mode != Completed || old(mode) == Completed
      ensures old(mode).Writing? ==> mode.Writing?
    {
      match mode {
        case Completed =>
          return AlreadyCompleted;
        case Writing(_) =>
          if row.keyIsNull {
            return KeyIsNull;
          }
          Write(row);
        case Collecting(ctids) =>
          if row.keyIsNull {
            return KeyIsNull;
          }
          if |ctids| < index.rowLimit.value {
            mode, inserted := Collecting(ctids + [row.ctid]), inserted + [row];
          } else {
            OnlyMutable(before, inserted, index.rowLimit.value);
            Cleanup();
            mode := Writing([]);
            Write(row);
          }
      }
      return Inserted;
    }

    /** Rows with a key, one after the other. */
    method InsertRows(rows: seq<Row>)
      requires Valid() && mode != Completed && inserted == []
      requires forall i :: 0 <= i < |rows| ==> !rows[i].keyIsNull
      modifies this, index
      ensures Valid() && mode != Completed && inserted == rows
    {
      for i := 0 to |rows|
        invariant Valid() && mode != Completed && inserted == rows[..i]
      {
        var outcome := Insert(rows[i]);
        assert rows[..i + 1] == rows[..i] + [rows[i]];
      }
      assert rows[..|rows|] == rows;
    }

    method Write(row: Row)
      requires Valid() && mode.Writing?
      modifies this, index
      ensures Valid() && mode.Writing? && inserted == old(inserted) + [row]
      ensures if row.fills
              then mode.pending == [] && index.segments == old(index.segments) + [Immutable(old(mode.pending) + [row.ctid])]
              else mode.pending == old(mode.pending) + [row.ctid] && index.segments == old(index.segments)
    {
      var pending := mode.pending + [row.ctid];
      WriterGoesOn(before, index.segments, mode.pending, inserted, index.rowLimit, row);
      inserted := inserted + [row];
      if row.fills {
        index.AddImmutable(pending);
        mode := Writing([]);
      } else {
        mode := Writing(pending);
      }
    }
  }

  /** A whole series and its cleanup: every row is indexed exactly once, the first of them in a mutable
      segment, and the others in order in finished ones, none of them without rows. */
  method InsertAll(index: Index, rows: seq<Row>)
    requires index.Valid() && forall i :: 0 <= i < |rows| ==> !rows[i].keyIsNull
    modifies index
    ensures index.Valid()
    ensures Placed(old(index.segments), index.segments, rows, index.rowLimit)
  {
    var state := new InsertState(index);
    state.InsertRows(rows);
    state.Cleanup();
    PlacedAtTheEnd(state.before, index.segments, rows, index.rowLimit);
  }
}
