/** A segment that is still open for writing: not an inverted index but a log of the rows added to it
    and removed from it, replayed whenever it is read. */
module MutableSegment {
  import opened Options

  type Ctid = int

  datatype Entry = Add(ctid: Ctid) | Remove(ctid: Ctid)

  /** A finished segment, or one that is a log of additions and removals with the counts of both. */
  datatype Segment =
    | Immutable(ctids: seq<Ctid>)
    | Mutable(log: seq<Entry>, maxDoc: nat, deleted: nat, frozen: bool)
  {
    predicate Open() {
      Mutable? && !frozen
    }
  }

  /** The log with additions of the rows appended. */
  function WithAdds(log: seq<Entry>, ctids: seq<Ctid>): seq<Entry> {
    if ctids == [] then log else WithAdds(log, ctids[..|ctids| - 1]) + [Add(ctids[|ctids| - 1])]
  }

  /** The log with removals of the rows appended. */
  function WithRemoves(log: seq<Entry>, ctids: seq<Ctid>): seq<Entry> {
    if ctids == [] then log else WithRemoves(log, ctids[..|ctids| - 1]) + [Remove(ctids[|ctids| - 1])]
  }

  /** The rows a log leaves in the segment. */
  function Replay(log: seq<Entry>): set<Ctid> {
    if log == [] then {}
    else
      var before := Replay(log[..|log| - 1]);
      match log[|log| - 1]
      case Add(c) => before + {c}
      case Remove(c) => before - {c}
  }

  /** Only rows that are not there are added, and only rows that are there are removed. */
  ghost predicate Proper(log: seq<Entry>) {
    log == [] ||
    (Proper(log[..|log| - 1]) &&
     match log[|log| - 1]
     case Add(c) => c !in Replay(log[..|log| - 1])
     case Remove(c) => c in Replay(log[..|log| - 1]))
  }

  /** The rows a log adds, in order. */
  function Added(log: seq<Entry>): seq<Ctid> {
    if log == [] then []
    else Added(log[..|log| - 1]) + match log[|log| - 1] case Add(c) => [c] case Remove(_) => []
  }

  /** The counts in the segment's entry are those of its log. */
  ghost predicate Counted(s: Segment)
    requires s.Mutable?
  {
    |Added(s.log)| == s.maxDoc && |s.log| == s.maxDoc + s.deleted
  }

  lemma {:induction false} AddedGrows(log: seq<Entry>, ctids: seq<Ctid>)
    ensures Added(WithAdds(log, ctids)) == Added(log) + ctids
    ensures |WithAdds(log, ctids)| == |log| + |ctids|
  {
    if ctids != [] {
      var front, last := ctids[..|ctids| - 1], ctids[|ctids| - 1];
      AddedGrows(log, front);
      assert WithAdds(log, ctids)[..|log| + |front|] == WithAdds(log, front);
      assert front + [last] == ctids;
    }
  }

  lemma {:induction false} AddsComeLast(log: seq<Entry>, ctids: seq<Ctid>)
    ensures log <= WithAdds(log, ctids)
  {
    if ctids != [] {
      AddsComeLast(log, ctids[..|ctids| - 1]);
    }
  }

  lemma {:induction false} AddedStays(log: seq<Entry>, ctids: seq<Ctid>)
    ensures Added(WithRemoves(log, ctids)) == Added(log)
    ensures |WithRemoves(log, ctids)| == |log| + |ctids|
  {
    if ctids != [] {
      var front := ctids[..|ctids| - 1];
      AddedStays(log, front);
      assert WithRemoves(log, ctids)[..|log| + |front|] == WithRemoves(log, front);
    }
  }

  ghost predicate Distinct(s: seq<Ctid>) {
    forall i, j :: 0 <= i < j < |s| ==> s[i] != s[j]
  }

  lemma LastIsNew(ctids: seq<Ctid>)
    requires ctids != [] && Distinct(ctids)
    ensures var front, last := ctids[..|ctids| - 1], ctids[|ctids| - 1];
            && Distinct(front) && last !in front && last in ctids
            && (forall c :: c in ctids <==> c in front || c == last)
  {
    assert ctids == ctids[..|ctids| - 1] + [ctids[|ctids| - 1]];
  }

  /** One more entry in the log. */
  lemma ReplayOne(log: seq<Entry>, e: Entry)
    ensures (log + [e])[..|log|] == log
    ensures Replay(log + [e]) == if e.Add? then Replay(log) + {e.ctid} else Replay(log) - {e.ctid}
    ensures Proper(log + [e]) <==> Proper(log) && (e.Add? <==> e.ctid !in Replay(log))
  {
    assert (log + [e])[..|log|] == log;
  }

  /** Adding rows that are not there. */
  lemma {:induction false} ReplayAdds(log: seq<Entry>, ctids: seq<Ctid>)
    requires Proper(log) && Distinct(ctids) && forall c :: c in ctids ==> c !in Replay(log)
    ensures Proper(WithAdds(log, ctids))
    ensures forall c :: c in Replay(WithAdds(log, ctids)) <==> c in Replay(log) || c in ctids
  {
    if ctids != [] {
      var front, last := ctids[..|ctids| - 1], ctids[|ctids| - 1];
      LastIsNew(ctids);
      ReplayAdds(log, front);
      ReplayOne(WithAdds(log, front), Add(last));
    }
  }

  /** Removing rows that are there. */
  lemma {:induction false} ReplayRemoves(log: seq<Entry>, ctids: seq<Ctid>)
    requires Proper(log) && Distinct(ctids) && forall c :: c in ctids ==> c in Replay(log)
    ensures Proper(WithRemoves(log, ctids))
    ensures forall c :: c in Replay(WithRemoves(log, ctids)) <==> c in Replay(log) && c !in ctids
  {
    if ctids != [] {
      var front, last := ctids[..|ctids| - 1], ctids[|ctids| - 1];
      LastIsNew(ctids);
      ReplayRemoves(log, front);
      ReplayOne(WithRemoves(log, front), Remove(last));
    }
  }

  /** A proper log leaves as many rows as its counts say. */
  lemma {:induction false} ReplaySize(log: seq<Entry>)
    requires Proper(log)
    ensures |Replay(log)| == 2 * |Added(log)| - |log|
  {
    if log != [] {
      ReplaySize(log[..|log| - 1]);
    }
  }

  ghost predicate Ascending(s: seq<Ctid>) {
    forall i, j :: 0 <= i < j < |s| ==> s[i] < s[j]
  }

  /** `c` in its place among the others. */
  function InsertAscending(s: seq<Ctid>, c: Ctid): seq<Ctid> {
    if s == [] || s[|s| - 1] < c then s + [c]
    else InsertAscending(s[..|s| - 1], c) + [s[|s| - 1]]
  }

  lemma {:induction false} InsertAscendingFacts(s: seq<Ctid>, c: Ctid)
    requires Ascending(s) && c !in s
    ensures forall x :: x in InsertAscending(s, c) <==> x in s || x == c
    ensures Ascending(InsertAscending(s, c)) && |InsertAscending(s, c)| == |s| + 1
  {
    if s != [] && c <= s[|s| - 1] {
      var front, last := s[..|s| - 1], s[|s| - 1];
      assert s == front + [last];
      InsertAscendingFacts(front, c);
      var r := InsertAscending(front, c);
      forall i | 0 <= i < |r|
        ensures r[i] < last
      {
        assert r[i] in r;
      }
    }
  }

  /** Rows in the order of their addresses. */
  method Sorted(rows: set<Ctid>) returns (ctids: seq<Ctid>)
    ensures Ascending(ctids) && |ctids| == |rows|
    ensures forall c :: c in ctids <==> c in rows
  {
    ctids := [];
    var left := rows;
    while left != {}
      invariant Ascending(ctids) && |ctids| + |left| == |rows|
      invariant forall c :: c in rows <==> c in ctids || c in left
      invariant forall c :: c in left ==> c !in ctids
      decreases |left|
    {
      assert (forall c :: c !in left) ==> left == {};
      var c :| c in left;
      InsertAscendingFacts(ctids, c);
      ctids, left := InsertAscending(ctids, c), left - {c};
    }
  }

  /** The rows of a mutable segment as they were when its entry was read, although the log may have
      grown since. A finished segment has no such list. */
  method MutableSnapshot(seen: Segment, log: seq<Entry>) returns (r: Option<seq<Ctid>>)
    requires seen.Mutable? ==> Counted(seen) && Proper(seen.log) && seen.log <= log
    ensures r.None? <==> seen.Immutable?
    ensures r.Some? ==>
              && Ascending(r.value) && |r.value| == seen.maxDoc - seen.deleted
              && forall c :: c in r.value <==> c in Replay(seen.log)
  {
    if seen.Immutable? {
      return None;
    }
    var live := {};
    var taken := seen.maxDoc + seen.deleted;
    for i := 0 to taken
      invariant live == Replay(log[..i])
    {
      assert log[..i + 1][..i] == log[..i];
      match log[i] {
        case Add(c) => live := live + {c};
        case Remove(c) => live := live - {c};
      }
    }
    assert log[..taken] == seen.log;
    ReplaySize(seen.log);
    var ctids := Sorted(live);
    return Some(ctids);
  }
}
