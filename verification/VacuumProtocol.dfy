/** The coordination protocol between segment merges, `ambulkdelete` and scans.

    Every critical section of `merge_index` and `ambulkdelete` is one atomic step, and a run is any
    interleaving of the steps of any number of mergers, scans and writers with one vacuum at a time.
    A merger may crash after any step, leaving its MergeList entry behind; its locks are released
    before its transaction ends.

    The shared objects are the CLEANUP_LOCK (held shared by a merger for its whole life, exclusively
    by a vacuum while it starts, and pinned by scans), the MergeLock (a mutex), the MergeList, the
    vacuum list with its sentinel, and the list of live segments. */
module VacuumProtocol {
  type SegmentId = nat
  type Doc = nat
  type Xid = nat
  type ScanId = nat

  /** A mutable segment is frozen when nothing is added to it any more: it is full, or the index has no
      row limit for mutable segments, so that nobody writes to them. */
  datatype Kind = Immutable | Mutable(frozen: bool)
  datatype Segment = Segment(kind: Kind, docs: set<Doc>)

  /** A mutable segment can be merged only once it is frozen. */
  predicate IsMergeable(seg: Segment) {
    seg.kind.Immutable? || seg.kind.frozen
  }

  /** Where one merger stands.  Every phase holds the CLEANUP_LOCK shared; `Locked`, `Opened`,
      `Planned` and `Relocked` also hold the MergeLock. */
  datatype MergerPhase =
    | Waiting
    | Locked
    | Opened(view: map<SegmentId, Segment>)
    | Planned(view: map<SegmentId, Segment>, todo: seq<set<SegmentId>>)
    | Merging(view: map<SegmentId, Segment>, todo: seq<set<SegmentId>>)
    | Stopped
    | Relocked
    | Leaving

  /** Where the vacuum stands.  `Exclusive` to `Collected` hold the CLEANUP_LOCK exclusively;
      `ExclusiveLocked` to `Pinned` hold the MergeLock. */
  datatype VacuumPhase =
    | Off
    | Exclusive
    | ExclusiveLocked
    | Collected
    | Unfenced
    | Reading
    | Listed
    | Pinned
    | Marking
    | Saved
    | Fenced

  /** `doomed` are the documents the callback reports dead, `view` the segments the vacuum opened,
      `todo` those it has not looked at yet, `marked` the immutable ones with pending delete metas,
      and `mutated` records that a mutable segment was edited in place. */
  datatype Vacuum = Vacuum(phase: VacuumPhase, doomed: set<Doc>, view: map<SegmentId, Segment>,
                           todo: set<SegmentId>, marked: set<SegmentId>, mutated: bool)

  /** An open scan: it pins the CLEANUP_LOCK first and reads the segment list afterwards. */
  datatype Scan = Scan(docs: set<Doc>)

  datatype Owner = Free | ByMerger(xid: Xid) | ByVacuum

  /** `ending` are the transactions of crashed mergers that have not ended yet; `inserted` and `dead` are
      the history of documents added and of documents deleted by vacuum. */
  datatype State = State(
    live: map<SegmentId, Segment>,
    used: set<SegmentId>,
    mergers: map<Xid, MergerPhase>,
    ending: set<Xid>,
    mergeList: map<Xid, set<SegmentId>>,
    mergeLock: Owner,
    vacuum: Vacuum,
    vacuumList: set<SegmentId>,
    sentinelPinned: bool,
    scans: map<ScanId, Scan>,
    inserted: set<Doc>,
    dead: set<Doc>)

  /** A backend commits a new segment, or adds rows to a mutable segment that is not frozen yet. */
  datatype WriterStep =
    | CreateSegment(id: SegmentId, kind: Kind, docs: set<Doc>)
    | AddToMutable(id: SegmentId, docs: set<Doc>, freeze: bool)

  datatype MergerStep =
    | Start
    | TakeLock
    | Open
    | Plan(todo: seq<set<SegmentId>>)
    | GiveUp
    | ReleaseLock
    | Commit(newId: SegmentId)
    | Stop
    | RetakeLock
    | RemoveEntry
    | Finish
    | Crash
    | EndTransaction

  datatype VacuumStep =
    | Exclude(doomed: set<Doc>)
    | LockMerges
    | CollectStale
    | Fail
    | Unfence
    | OpenReader
    | WriteList(stale: set<SegmentId>)
    | PinSentinel
    | UnlockMerges
    | Mark(id: SegmentId)
    | Save
    | Barrier
    | Return

  datatype ScanStep = PinCleanupLock | LoadSegments | Close

  datatype Step =
    | Write(writer: WriterStep)
    | Merge(xid: Xid, merger: MergerStep)
    | Vacuuming(vacuum: VacuumStep)
    | Scanning(scan: ScanId, step: ScanStep)

  // ---------- Reading the state ----------

  ghost function DocsOf(segments: map<SegmentId, Segment>): set<Doc> {
    set i, d | i in segments && d in segments[i].docs :: d
  }

  /** The segments named by any MergeList entry, stale ones included. */
  ghost function Claimed(entries: map<Xid, set<SegmentId>>): set<SegmentId> {
    set x, i | x in entries && i in entries[x] :: i
  }

  ghost function UnionOf(candidates: seq<set<SegmentId>>): set<SegmentId> {
    set k, i | 0 <= k < |candidates| && i in candidates[k] :: i
  }

  /** What `VacuumList::read_list` returns: nothing once the sentinel is unpinned, and before that at
      least the segments of the vacuum. */
  function VacuumListContents(s: State): set<SegmentId> {
    if s.sentinelPinned then s.vacuumList else {}
  }

  ghost predicate PairwiseDisjoint(candidates: seq<set<SegmentId>>) {
    forall k, l :: 0 <= k < l < |candidates| ==> candidates[k] !! candidates[l]
  }

  /** The candidates that the merge policy may choose: disjoint, non-empty sets of mergeable segments
      that no vacuum and no other merge has claimed. */
  ghost predicate AllowedPlan(s: State, view: map<SegmentId, Segment>, todo: seq<set<SegmentId>>) {
    && |todo| > 0
    && PairwiseDisjoint(todo)
    && (forall k :: 0 <= k < |todo| ==> todo[k] != {})
    && (forall i :: i in UnionOf(todo) ==>
          i in view && IsMergeable(view[i]) && i !in VacuumListContents(s) && i !in Claimed(s.mergeList))
  }

  // ---------- Steps ----------

  predicate HoldsCleanupExclusively(phase: VacuumPhase) {
    phase.Exclusive? || phase.ExclusiveLocked? || phase.Collected?
  }

  predicate VacuumHoldsMergeLock(phase: VacuumPhase) {
    phase.ExclusiveLocked? || phase.Collected? || phase.Unfenced? || phase.Reading? || phase.Listed? || phase.Pinned?
  }

  predicate MergerHoldsMergeLock(phase: MergerPhase) {
    phase.Locked? || phase.Opened? || phase.Planned? || phase.Relocked?
  }

  /** The segment a merge writes: the documents its inputs had when the merger opened them.  No
      segment is written when none is left. */
  ghost function MergeOutput(view: map<SegmentId, Segment>, inputs: set<SegmentId>): set<Doc> {
    set i, d | i in inputs && i in view && d in view[i].docs :: d
  }

  ghost function CommitMerge(live: map<SegmentId, Segment>, view: map<SegmentId, Segment>, inputs: set<SegmentId>,
                             newId: SegmentId): map<SegmentId, Segment> {
    var docs := MergeOutput(view, inputs);
    if docs == {} then live - inputs else (live - inputs)[newId := Segment(Immutable, docs)]
  }

  function Without(seg: Segment, docs: set<Doc>): Segment {
    seg.(docs := seg.docs - docs)
  }

  /** The documents of a listed segment that the vacuum callback reports dead. */
  function Hits(v: Vacuum, id: SegmentId): set<Doc> {
    if id in v.view then v.view[id].docs * v.doomed else {}
  }

  /** Saving the delete metas rewrites all the marked segments in one atomic operation. */
  ghost function SaveDeletes(live: map<SegmentId, Segment>, v: Vacuum): map<SegmentId, Segment> {
    map i | i in live :: if i in v.marked then Without(live[i], Hits(v, i)) else live[i]
  }

  ghost function AllHits(v: Vacuum): set<Doc> {
    set i, d | i in v.marked && d in Hits(v, i) :: d
  }

  ghost predicate WriterEnabled(s: State, w: WriterStep) {
    match w
    case CreateSegment(id, kind, docs) => id !in s.used && docs !! s.inserted
    case AddToMutable(id, docs, freeze) => id in s.live && s.live[id].kind == Mutable(false) && docs !! s.inserted
  }

  ghost function WriterEffect(s: State, w: WriterStep): (t: State)
    requires WriterEnabled(s, w)
    ensures t.dead == s.dead && t.vacuum == s.vacuum && t.scans == s.scans
  {
    match w
    case CreateSegment(id, kind, docs) =>
      s.(live := s.live[id := Segment(kind, docs)], used := s.used + {id}, inserted := s.inserted + docs)
    case AddToMutable(id, docs, freeze) =>
      s.(live := s.live[id := Segment(Mutable(freeze), s.live[id].docs + docs)], inserted := s.inserted + docs)
  }

  ghost predicate MergerEnabled(s: State, x: Xid, m: MergerStep) {
    if m.Start? then
      // the shared CLEANUP_LOCK is granted unless the vacuum holds it exclusively
      x !in s.mergers && x !in s.ending && x !in s.mergeList && !HoldsCleanupExclusively(s.vacuum.phase)
    else if m.EndTransaction? then
      x in s.ending
    else
      && x in s.mergers
      && var phase := s.mergers[x];
         match m
         case TakeLock => phase.Waiting? && s.mergeLock == Free
         case Open => phase.Locked?
         case Plan(todo) => phase.Opened? && AllowedPlan(s, phase.view, todo)
         case GiveUp => phase.Locked? || phase.Opened?
         case ReleaseLock => phase.Planned?
         case Commit(newId) => phase.Merging? && |phase.todo| > 0 && newId !in s.used
         case Stop => phase.Merging?
         case RetakeLock => phase.Stopped? && s.mergeLock == Free
         case RemoveEntry => phase.Relocked?
         case Finish => phase.Leaving?
         case _ => true
  }

  ghost function MergerEffect(s: State, x: Xid, m: MergerStep): (t: State)
    requires MergerEnabled(s, x, m)
    ensures t.dead == s.dead && t.vacuum == s.vacuum && t.scans == s.scans
  {
    match m
    case Start => s.(mergers := s.mergers[x := Waiting])
    case TakeLock => s.(mergers := s.mergers[x := Locked], mergeLock := ByMerger(x))
    case Open => s.(mergers := s.mergers[x := Opened(s.live)])
    case Plan(todo) =>
      s.(mergers := s.mergers[x := Planned(s.mergers[x].view, todo)], mergeList := s.mergeList[x := UnionOf(todo)])
    case GiveUp => s.(mergers := s.mergers[x := Leaving], mergeLock := Free)
    case ReleaseLock => s.(mergers := s.mergers[x := Merging(s.mergers[x].view, s.mergers[x].todo)], mergeLock := Free)
    case Commit(newId) =>
      var phase := s.mergers[x];
      s.(live := CommitMerge(s.live, phase.view, phase.todo[0], newId), used := s.used + {newId},
         mergers := s.mergers[x := Merging(phase.view, phase.todo[1..])])
    case Stop => s.(mergers := s.mergers[x := Stopped])
    case RetakeLock => s.(mergers := s.mergers[x := Relocked], mergeLock := ByMerger(x))
    case RemoveEntry => s.(mergers := s.mergers[x := Leaving], mergeList := s.mergeList - {x}, mergeLock := Free)
    case Finish => s.(mergers := s.mergers - {x})
    case Crash =>
      s.(mergers := s.mergers - {x}, ending := s.ending + {x},
         mergeLock := if s.mergeLock == ByMerger(x) then Free else s.mergeLock)
    case EndTransaction => s.(ending := s.ending - {x})
  }

  ghost predicate VacuumEnabled(s: State, v: VacuumStep) {
    var phase := s.vacuum.phase;
    match v
    case Exclude(doomed) => phase.Off? && s.mergers == map[] && doomed <= s.inserted
    case LockMerges => phase.Exclusive? && s.mergeLock == Free
    case CollectStale => phase.ExclusiveLocked?
    case Fail => phase.Collected? && s.mergeList != map[]
    case Unfence => phase.Collected? && s.mergeList == map[]
    case OpenReader => phase.Unfenced?
    case WriteList(stale) => phase.Reading? && stale <= s.vacuumList
    case PinSentinel => phase.Listed?
    case UnlockMerges => phase.Pinned?
    case Mark(id) => phase.Marking? && id in s.vacuum.todo
    case Save => phase.Marking? && s.vacuum.todo == {}
    case Barrier =>
      // the cleanup lock is granted once nobody else pins or locks the CLEANUP_LOCK
      phase.Saved? && s.vacuum.marked != {} && s.mergers == map[] && s.scans == map[]
    case Return => phase.Fenced? || (phase.Saved? && s.vacuum.marked == {})
  }

  /** The documents deleted at once: those of a mutable segment, which is edited in place. */
  ghost function DeletedInPlace(live: map<SegmentId, Segment>, v: Vacuum, id: SegmentId): set<Doc> {
    if id in live && live[id].kind.Mutable? then Hits(v, id) else {}
  }

  ghost function MarkLive(live: map<SegmentId, Segment>, v: Vacuum, id: SegmentId): map<SegmentId, Segment> {
    if DeletedInPlace(live, v, id) == {} then live else live[id := Without(live[id], Hits(v, id))]
  }

  ghost function MarkVacuum(live: map<SegmentId, Segment>, v: Vacuum, id: SegmentId): Vacuum {
    if Hits(v, id) == {} then v.(todo := v.todo - {id})
    else if DeletedInPlace(live, v, id) != {} then v.(todo := v.todo - {id}, mutated := true)
    else v.(todo := v.todo - {id}, marked := v.marked + {id})
  }

  ghost function VacuumEffect(s: State, v: VacuumStep): (t: State)
    requires VacuumEnabled(s, v)
    ensures s.dead <= t.dead && t.scans == s.scans
  {
    match v
    case Exclude(doomed) => s.(vacuum := Vacuum(Exclusive, doomed, map[], {}, {}, false))
    case LockMerges => s.(vacuum := s.vacuum.(phase := ExclusiveLocked), mergeLock := ByVacuum)
    case CollectStale =>
      // entries whose transaction is no longer in progress are recyclable
      s.(vacuum := s.vacuum.(phase := Collected),
         mergeList := map x | x in s.mergeList && (x in s.mergers || x in s.ending) :: s.mergeList[x])
    case Fail =>
      // the assertion that no merge is active fails
      s.(vacuum := s.vacuum.(phase := Off), mergeLock := Free)
    case Unfence => s.(vacuum := s.vacuum.(phase := Unfenced))
    case OpenReader => s.(vacuum := s.vacuum.(phase := Reading, view := s.live, todo := s.live.Keys))
    case WriteList(stale) =>
      // pages of a longer earlier list are not cleared, so some of its ids can still be read
      s.(vacuum := s.vacuum.(phase := Listed), vacuumList := s.vacuum.view.Keys + stale)
    case PinSentinel => s.(vacuum := s.vacuum.(phase := Pinned), sentinelPinned := true)
    case UnlockMerges => s.(vacuum := s.vacuum.(phase := Marking), mergeLock := Free)
    case Mark(id) =>
      s.(live := MarkLive(s.live, s.vacuum, id), vacuum := MarkVacuum(s.live, s.vacuum, id),
         dead := s.dead + DeletedInPlace(s.live, s.vacuum, id))
    case Save =>
      s.(live := SaveDeletes(s.live, s.vacuum), dead := s.dead + AllHits(s.vacuum),
         vacuum := s.vacuum.(phase := Saved))
    case Barrier => s.(vacuum := s.vacuum.(phase := Fenced))
    case Return => s.(vacuum := s.vacuum.(phase := Off), sentinelPinned := false)
  }

  ghost predicate ScanEnabled(s: State, c: ScanId, step: ScanStep) {
    step.PinCleanupLock? <==> c !in s.scans
  }

  ghost function ScanEffect(s: State, c: ScanId, step: ScanStep): (t: State)
    requires ScanEnabled(s, c, step)
    ensures t.dead == s.dead && t.vacuum == s.vacuum
    ensures forall b :: b in t.scans && b !in s.scans ==> b == c && step.PinCleanupLock?
  {
    match step
    case PinCleanupLock => s.(scans := s.scans[c := Scan({})])
    case LoadSegments => s.(scans := s.scans[c := s.scans[c].(docs := DocsOf(s.live))])
    case Close => s.(scans := s.scans - {c})
  }

  ghost predicate Enabled(s: State, step: Step) {
    match step
    case Write(w) => WriterEnabled(s, w)
    case Merge(x, m) => MergerEnabled(s, x, m)
    case Vacuuming(v) => VacuumEnabled(s, v)
    case Scanning(c, p) => ScanEnabled(s, c, p)
  }

  ghost function Apply(s: State, step: Step): (t: State)
    requires Enabled(s, step)
    ensures s.dead <= t.dead
    ensures forall c :: c in t.scans && c !in s.scans ==> step == Scanning(c, PinCleanupLock)
  {
    match step
    case Write(w) => WriterEffect(s, w)
    case Merge(x, m) => MergerEffect(s, x, m)
    case Vacuuming(v) => VacuumEffect(s, v)
    case Scanning(c, p) => ScanEffect(s, c, p)
  }

  /** An index with no segments and nobody at work. */
  function Init(): State {
    State(map[], {}, map[], {}, map[], Free, Vacuum(Off, {}, map[], {}, {}, false), {}, false, map[], {}, {})
  }

  // ---------- What every run keeps ----------

  predicate HasEntry(phase: MergerPhase) {
    phase.Planned? || phase.Merging? || phase.Stopped? || phase.Relocked?
  }

  predicate BeforeView(phase: VacuumPhase) {
    phase.Exclusive? || phase.ExclusiveLocked? || phase.Collected? || phase.Unfenced?
  }

  predicate VacuumHasView(phase: VacuumPhase) {
    phase.Reading? || phase.Listed? || phase.Pinned? || phase.Marking? || phase.Saved? || phase.Fenced?
  }

  predicate SentinelPhase(phase: VacuumPhase) {
    phase.Pinned? || phase.Marking? || phase.Saved? || phase.Fenced?
  }

  predicate BeforeSave(phase: VacuumPhase) {
    phase.Reading? || phase.Listed? || phase.Pinned? || phase.Marking?
  }

  ghost predicate LocksAgree(mergers: map<Xid, MergerPhase>, mergeLock: Owner, phase: VacuumPhase, pinned: bool) {
    && (forall x :: x in mergers ==> (mergeLock == ByMerger(x) <==> MergerHoldsMergeLock(mergers[x])))
    && (mergeLock.ByMerger? ==> mergeLock.xid in mergers)
    && (mergeLock == ByVacuum <==> VacuumHoldsMergeLock(phase))
    && (HoldsCleanupExclusively(phase) ==> mergers == map[])
    && (pinned <==> SentinelPhase(phase))
  }

  /** From its assertion until it releases the MergeLock, the vacuum faces an empty MergeList. */
  predicate MergeListMustBeEmpty(phase: VacuumPhase) {
    phase.Unfenced? || phase.Reading? || phase.Listed? || phase.Pinned?
  }

  ghost predicate EntriesAgree(mergers: map<Xid, MergerPhase>, mergeList: map<Xid, set<SegmentId>>, phase: VacuumPhase) {
    && (forall x :: x in mergers ==> (x in mergeList <==> HasEntry(mergers[x])))
    && (MergeListMustBeEmpty(phase) ==> mergeList == map[])
  }

  ghost predicate EntriesDisjoint(mergeList: map<Xid, set<SegmentId>>) {
    forall x, y :: x in mergeList && y in mergeList && x != y ==> mergeList[x] !! mergeList[y]
  }

  ghost predicate ListApart(mergeList: map<Xid, set<SegmentId>>, phase: VacuumPhase, view: map<SegmentId, Segment>,
                            vacuumList: set<SegmentId>) {
    && (phase.Listed? || SentinelPhase(phase) ==> view.Keys <= vacuumList)
    && (SentinelPhase(phase) ==> forall x :: x in mergeList ==> mergeList[x] !! vacuumList)
  }

  ghost predicate IdsUsed(live: map<SegmentId, Segment>, used: set<SegmentId>, mergers: map<Xid, MergerPhase>,
                          mergeList: map<Xid, set<SegmentId>>) {
    && live.Keys <= used
    && (forall x :: x in mergeList ==> mergeList[x] <= used)
    && (forall x :: x in mergers && mergers[x].Opened? ==> mergers[x].view.Keys <= used)
  }

  predicate Busy(phase: MergerPhase) {
    phase.Planned? || phase.Merging?
  }

  /** The inputs of the merges still to be committed are claimed, live and mergeable. */
  ghost predicate WorkOk(view: map<SegmentId, Segment>, todo: seq<set<SegmentId>>, live: map<SegmentId, Segment>,
                         entry: set<SegmentId>) {
    && PairwiseDisjoint(todo)
    && UnionOf(todo) <= entry
    && (forall i :: i in UnionOf(todo) ==> i in view && i in live && IsMergeable(view[i]) && live[i].kind == view[i].kind)
  }

  ghost predicate WorkLive(live: map<SegmentId, Segment>, mergers: map<Xid, MergerPhase>, mergeList: map<Xid, set<SegmentId>>) {
    forall x :: x in mergers && Busy(mergers[x]) ==>
      x in mergeList && WorkOk(mergers[x].view, mergers[x].todo, live, mergeList[x])
  }

  /** What an opened merger saw as mergeable is still so, unless another merge claims it. */
  ghost predicate ViewOk(view: map<SegmentId, Segment>, live: map<SegmentId, Segment>, claimed: set<SegmentId>) {
    forall i :: i in view && IsMergeable(view[i]) ==> i in claimed || (i in live && live[i].kind == view[i].kind)
  }

  ghost predicate ViewsLive(live: map<SegmentId, Segment>, mergers: map<Xid, MergerPhase>, claimed: set<SegmentId>) {
    forall x :: x in mergers && mergers[x].Opened? ==> ViewOk(mergers[x].view, live, claimed)
  }

  ghost predicate ListedLive(live: map<SegmentId, Segment>, vacuum: Vacuum) {
    && (BeforeView(vacuum.phase) ==> vacuum.marked == {} && !vacuum.mutated)
    && (VacuumHasView(vacuum.phase) ==>
          && vacuum.view.Keys <= live.Keys
          && vacuum.todo <= vacuum.view.Keys && vacuum.marked <= vacuum.view.Keys && vacuum.todo !! vacuum.marked)
  }

  /** The invariant of every run. */
  ghost predicate Safe(s: State) {
    && LocksAgree(s.mergers, s.mergeLock, s.vacuum.phase, s.sentinelPinned)
    && EntriesAgree(s.mergers, s.mergeList, s.vacuum.phase)
    && EntriesDisjoint(s.mergeList)
    && ListApart(s.mergeList, s.vacuum.phase, s.vacuum.view, s.vacuumList)
    && IdsUsed(s.live, s.used, s.mergers, s.mergeList)
    && WorkLive(s.live, s.mergers, s.mergeList)
    && ViewsLive(s.live, s.mergers, Claimed(s.mergeList))
    && ListedLive(s.live, s.vacuum)
  }

  lemma SafeAfterWriter(s: State, w: WriterStep)
    requires Safe(s) && WriterEnabled(s, w)
    ensures Safe(WriterEffect(s, w))
  {
  }

  lemma SafeAfterLocking(s: State, x: Xid, m: MergerStep)
    requires Safe(s) && MergerEnabled(s, x, m)
    requires m.Start? || m.TakeLock? || m.RetakeLock?
    ensures Safe(MergerEffect(s, x, m))
  {
  }

  lemma SafeAfterUnlocking(s: State, x: Xid, m: MergerStep)
    requires Safe(s) && MergerEnabled(s, x, m)
    requires m.Open? || m.GiveUp? || m.ReleaseLock?
    ensures Safe(MergerEffect(s, x, m))
  {
  }

  lemma SafeAfterStopping(s: State, x: Xid, m: MergerStep)
    requires Safe(s) && MergerEnabled(s, x, m)
    requires m.Stop? || m.RemoveEntry?
    ensures Safe(MergerEffect(s, x, m))
  {
  }

  lemma SafeAfterLeaving(s: State, x: Xid, m: MergerStep)
    requires Safe(s) && MergerEnabled(s, x, m)
    requires m.Finish? || m.Crash? || m.EndTransaction?
    ensures Safe(MergerEffect(s, x, m))
  {
  }

  lemma SafeAfterFencing(s: State, v: VacuumStep)
    requires Safe(s) && VacuumEnabled(s, v)
    requires v.Exclude? || v.LockMerges? || v.CollectStale? || v.Fail? || v.Unfence? || v.OpenReader?
    ensures Safe(VacuumEffect(s, v))
  {
  }

  lemma SafeAfterListing(s: State, v: VacuumStep)
    requires Safe(s) && VacuumEnabled(s, v)
    requires v.WriteList? || v.PinSentinel? || v.UnlockMerges?
    ensures Safe(VacuumEffect(s, v))
    ensures v.WriteList? ==> VacuumEffect(s, v).vacuumList == s.vacuum.view.Keys + v.stale
  {
  }

  /** Editing segments in place, without adding, removing or unfreezing any, disturbs no merger. */
  lemma SafeAfterEdit(s: State, live: map<SegmentId, Segment>)
    requires Safe(s)
    requires live.Keys == s.live.Keys
    requires forall i :: i in live ==> live[i].kind == s.live[i].kind
    ensures Safe(s.(live := live))
  {
  }

  lemma SafeAfterMark(s: State, id: SegmentId)
    requires Safe(s) && VacuumEnabled(s, Mark(id))
    ensures Safe(VacuumEffect(s, Mark(id)))
  {
    SafeAfterEdit(s, VacuumEffect(s, Mark(id)).live);
  }

  lemma SafeAfterDeleting(s: State, v: VacuumStep)
    requires Safe(s) && VacuumEnabled(s, v)
    requires v.Save? || v.Barrier? || v.Return?
    ensures Safe(VacuumEffect(s, v))
  {
  }

  lemma UnionOfHead(todo: seq<set<SegmentId>>)
    requires |todo| > 0
    ensures UnionOf(todo) == todo[0] + UnionOf(todo[1..])
    ensures PairwiseDisjoint(todo) ==> PairwiseDisjoint(todo[1..]) && todo[0] !! UnionOf(todo[1..])
  {
    forall i | i in UnionOf(todo)
      ensures i in todo[0] + UnionOf(todo[1..])
    {
      var k :| 0 <= k < |todo| && i in todo[k];
      if k > 0 {
        assert i in todo[1..][k - 1];
      }
    }
    forall i | i in UnionOf(todo[1..])
      ensures i in UnionOf(todo)
      ensures PairwiseDisjoint(todo) ==> i !in todo[0]
    {
      var k :| 0 <= k < |todo[1..]| && i in todo[1..][k];
      assert i in todo[k + 1];
    }
  }

  lemma SafeAfterPlan(s: State, x: Xid, todo: seq<set<SegmentId>>)
    requires Safe(s) && MergerEnabled(s, x, Plan(todo))
    ensures Safe(MergerEffect(s, x, Plan(todo)))
  {
    forall y | y in s.mergeList
      ensures s.mergeList[y] !! UnionOf(todo)
    {
      assert forall i :: i in s.mergeList[y] ==> i in Claimed(s.mergeList);
    }
  }

  /** A merge touches only the segments its own entry claims. */
  lemma CommitTouches(s: State, x: Xid, newId: SegmentId)
    requires Safe(s) && MergerEnabled(s, x, Commit(newId))
    ensures var todo := s.mergers[x].todo;
            && todo[0] <= s.mergeList[x]
            && todo[0] <= Claimed(s.mergeList)
            && WorkOk(s.mergers[x].view, todo[1..], MergerEffect(s, x, Commit(newId)).live, s.mergeList[x])
    ensures forall y :: y in s.mergeList && y != x ==> s.mergeList[y] !! s.mergers[x].todo[0]
  {
    var todo := s.mergers[x].todo;
    UnionOfHead(todo);
    assert todo[0] <= s.mergeList[x];
    assert forall i :: i in todo[0] ==> i in Claimed(s.mergeList);
  }

  lemma OthersKeepWork(view: map<SegmentId, Segment>, todo: seq<set<SegmentId>>, entry: set<SegmentId>,
                       live: map<SegmentId, Segment>, mine: map<SegmentId, Segment>, inputs: set<SegmentId>, newId: SegmentId)
    requires WorkOk(view, todo, live, entry) && entry !! inputs && newId !in entry
    ensures WorkOk(view, todo, CommitMerge(live, mine, inputs, newId), entry)
  {
  }

  lemma SafeAfterCommit(s: State, x: Xid, newId: SegmentId)
    requires Safe(s) && MergerEnabled(s, x, Commit(newId))
    ensures Safe(MergerEffect(s, x, Commit(newId)))
  {
    var t := MergerEffect(s, x, Commit(newId));
    var phase := s.mergers[x];
    CommitTouches(s, x, newId);
    forall y | y in t.mergers && Busy(t.mergers[y]) && y != x
      ensures WorkOk(t.mergers[y].view, t.mergers[y].todo, t.live, t.mergeList[y])
    {
      OthersKeepWork(s.mergers[y].view, s.mergers[y].todo, s.mergeList[y], s.live, phase.view, phase.todo[0], newId);
    }
    assert WorkLive(t.live, t.mergers, t.mergeList);
    assert ListedLive(t.live, t.vacuum);
  }

  // ---------- What runs keep when no vacuum returns under an outdated view ----------

  ghost predicate Apart(live: map<SegmentId, Segment>) {
    forall i, j :: i in live && j in live && i != j ==> live[i].docs !! live[j].docs
  }

  ghost predicate Conserved(live: map<SegmentId, Segment>, inserted: set<Doc>, dead: set<Doc>) {
    && dead <= inserted
    && DocsOf(live) == inserted - dead
  }

  ghost predicate Unchanged(view: map<SegmentId, Segment>, ids: set<SegmentId>, live: map<SegmentId, Segment>) {
    forall i :: i in ids ==> i in view && i in live && live[i] == view[i]
  }

  ghost predicate WorkExact(live: map<SegmentId, Segment>, mergers: map<Xid, MergerPhase>) {
    forall x :: x in mergers && Busy(mergers[x]) ==> Unchanged(mergers[x].view, UnionOf(mergers[x].todo), live)
  }

  ghost predicate ViewExact(view: map<SegmentId, Segment>, live: map<SegmentId, Segment>, exempt: set<SegmentId>) {
    forall i :: i in view && IsMergeable(view[i]) && i !in exempt ==> i in live && live[i] == view[i]
  }

  /** The listed segments, once the vacuum has edited any of them and until all mergers have left. */
  function DirtyList(v: Vacuum, vacuumList: set<SegmentId>): set<SegmentId> {
    if (v.phase.Marking? && v.mutated) || (v.phase.Saved? && (v.mutated || v.marked != {})) then vacuumList else {}
  }

  ghost predicate ViewsExact(live: map<SegmentId, Segment>, mergers: map<Xid, MergerPhase>, exempt: set<SegmentId>) {
    forall x :: x in mergers && mergers[x].Opened? ==> ViewExact(mergers[x].view, live, exempt)
  }

  /** A listed segment keeps the documents the vacuum saw in it, and gains no doomed one. */
  ghost predicate ListedDocs(live: map<SegmentId, Segment>, v: Vacuum) {
    BeforeSave(v.phase) ==>
      && (forall i :: i in v.view && i in live ==> live[i].docs * v.doomed <= v.view[i].docs)
      && (forall i :: i in v.view && i in live && i in v.todo + v.marked ==> v.view[i].docs <= live[i].docs)
  }

  /** Doomed documents are found only in segments the vacuum has still to clean. */
  ghost predicate DoomedOnlyIn(live: map<SegmentId, Segment>, v: Vacuum) {
    && (BeforeSave(v.phase) ==> forall i :: i in live && i !in v.todo && i !in v.marked ==> live[i].docs !! v.doomed)
    && (v.phase.Saved? || v.phase.Fenced? ==> forall i :: i in live ==> live[i].docs !! v.doomed)
  }

  ghost predicate ScansFenced(scans: map<ScanId, Scan>, v: Vacuum) {
    v.phase.Fenced? ==> forall c :: c in scans ==> scans[c].docs !! v.doomed
  }

  ghost predicate Exact(s: State) {
    && Apart(s.live)
    && Conserved(s.live, s.inserted, s.dead)
    && WorkExact(s.live, s.mergers)
    && ViewsExact(s.live, s.mergers, Claimed(s.mergeList) + DirtyList(s.vacuum, s.vacuumList))
    && ListedDocs(s.live, s.vacuum)
    && DoomedOnlyIn(s.live, s.vacuum)
    && (s.vacuum.phase.Off? || s.vacuum.doomed <= s.inserted)
    && ScansFenced(s.scans, s.vacuum)
  }

  /** A vacuum that did not pass the barrier returns while a merger that has not yet chosen its
      candidates holds an outdated view of a segment it may still choose. */
  ghost predicate LosesDelete(s: State, step: Step) {
    && step == Vacuuming(Return) && s.vacuum.phase.Saved?
    && exists x, i :: x in s.mergers && s.mergers[x].Opened? && i in s.mergers[x].view && OutdatedView(s, s.mergers[x].view, i)
  }

  ghost predicate OutdatedView(s: State, view: map<SegmentId, Segment>, i: SegmentId)
    requires i in view
  {
    IsMergeable(view[i]) && i !in Claimed(s.mergeList) && i in s.live && s.live[i].docs != view[i].docs
  }

  lemma DocsOfGrown(live: map<SegmentId, Segment>, id: SegmentId, seg: Segment)
    requires Apart(live)
    requires if id in live then live[id].docs <= seg.docs && seg.docs - live[id].docs !! DocsOf(live) else seg.docs !! DocsOf(live)
    ensures DocsOf(live[id := seg]) == DocsOf(live) + seg.docs
    ensures Apart(live[id := seg])
  {
    assert forall i :: i in live ==> live[i].docs <= DocsOf(live);
    var grown := live[id := seg];
    forall d | d in DocsOf(live) + seg.docs
      ensures d in DocsOf(grown)
    {
      if d in seg.docs {
        assert id in grown && d in grown[id].docs;
      } else {
        var i :| i in live && d in live[i].docs;
        assert i in grown && d in grown[i].docs;
      }
    }
  }

  lemma DocsOfMerged(live: map<SegmentId, Segment>, view: map<SegmentId, Segment>, inputs: set<SegmentId>, newId: SegmentId)
    requires Apart(live) && Unchanged(view, inputs, live) && newId !in live
    ensures DocsOf(CommitMerge(live, view, inputs, newId)) == DocsOf(live)
    ensures Apart(CommitMerge(live, view, inputs, newId))
  {
    var merged := CommitMerge(live, view, inputs, newId);
    forall d | d in DocsOf(live)
      ensures d in DocsOf(merged)
    {
      var i :| i in live && d in live[i].docs;
      if i in inputs {
        assert d in MergeOutput(view, inputs);
        assert newId in merged && d in merged[newId].docs;
      } else {
        assert i in merged && d in merged[i].docs;
      }
    }
  }

  /** Deleting documents from a segment deletes them from the index, as no other segment has them. */
  lemma DocsOfMarked(live: map<SegmentId, Segment>, id: SegmentId, hits: set<Doc>)
    requires Apart(live) && id in live && hits <= live[id].docs
    ensures DocsOf(live[id := Without(live[id], hits)]) == DocsOf(live) - hits
    ensures hits <= DocsOf(live)
    ensures Apart(live[id := Without(live[id], hits)])
  {
    var cleaned := live[id := Without(live[id], hits)];
    forall d | d in DocsOf(live) - hits
      ensures d in DocsOf(cleaned)
    {
      var i :| i in live && d in live[i].docs;
      assert i in cleaned && d in cleaned[i].docs;
    }
  }

  lemma DocsOfSaved(live: map<SegmentId, Segment>, v: Vacuum)
    requires Apart(live) && v.marked <= live.Keys
    requires forall i :: i in v.marked ==> Hits(v, i) <= live[i].docs
    ensures DocsOf(SaveDeletes(live, v)) == DocsOf(live) - AllHits(v)
    ensures AllHits(v) <= DocsOf(live)
    ensures Apart(SaveDeletes(live, v))
  {
    var cleaned := SaveDeletes(live, v);
    forall d | d in DocsOf(live) - AllHits(v)
      ensures d in DocsOf(cleaned)
    {
      var i :| i in live && d in live[i].docs;
      assert i in cleaned && d in cleaned[i].docs;
    }
  }

  lemma MergersAfterWriter(s: State, w: WriterStep)
    requires Safe(s) && Exact(s) && WriterEnabled(s, w)
    ensures var t := WriterEffect(s, w);
            && WorkExact(t.live, t.mergers)
            && ViewsExact(t.live, t.mergers, Claimed(t.mergeList) + DirtyList(t.vacuum, t.vacuumList))
  {
  }

  lemma ExactAfterWriter(s: State, w: WriterStep)
    requires Safe(s) && Exact(s) && WriterEnabled(s, w)
    ensures Exact(WriterEffect(s, w))
  {
    var t := WriterEffect(s, w);
    MergersAfterWriter(s, w);
    DocsOfGrown(s.live, w.id, t.live[w.id]);
    assert w.AddToMutable? ==> s.live[w.id].docs <= DocsOf(s.live);
    assert DocsOf(t.live) == DocsOf(s.live) + w.docs;
  }

  lemma ExactAfterLocking(s: State, x: Xid, m: MergerStep)
    requires Safe(s) && Exact(s) && MergerEnabled(s, x, m) && !m.Plan? && !m.Commit?
    ensures Exact(MergerEffect(s, x, m))
  {
  }

  lemma ExactAfterPlan(s: State, x: Xid, todo: seq<set<SegmentId>>)
    requires Safe(s) && Exact(s) && MergerEnabled(s, x, Plan(todo))
    ensures Exact(MergerEffect(s, x, Plan(todo)))
  {
  }

  /** A merge of unlisted segments neither hides nor moves a doomed document. */
  lemma VacuumDocsAfterCommit(live: map<SegmentId, Segment>, v: Vacuum, view: map<SegmentId, Segment>,
                              inputs: set<SegmentId>, newId: SegmentId)
    requires Unchanged(view, inputs, live) && newId !in live && ListedLive(live, v)
    requires BeforeSave(v.phase) ==> inputs !! v.view.Keys
    requires ListedDocs(live, v) && DoomedOnlyIn(live, v)
    ensures ListedDocs(CommitMerge(live, view, inputs, newId), v)
    ensures DoomedOnlyIn(CommitMerge(live, view, inputs, newId), v)
  {
    assert BeforeSave(v.phase) || v.phase.Saved? || v.phase.Fenced? ==> MergeOutput(view, inputs) !! v.doomed;
  }

  lemma ExactAfterCommit(s: State, x: Xid, newId: SegmentId)
    requires Safe(s) && Exact(s) && MergerEnabled(s, x, Commit(newId))
    ensures Exact(MergerEffect(s, x, Commit(newId)))
  {
    var t := MergerEffect(s, x, Commit(newId));
    var phase := s.mergers[x];
    UnionOfHead(phase.todo);
    CommitTouches(s, x, newId);
    DocsOfMerged(s.live, phase.view, phase.todo[0], newId);
    assert BeforeSave(s.vacuum.phase) ==> phase.todo[0] !! s.vacuum.view.Keys;
    VacuumDocsAfterCommit(s.live, s.vacuum, phase.view, phase.todo[0], newId);
    forall y | y in t.mergers && Busy(t.mergers[y]) && y != x
      ensures Unchanged(t.mergers[y].view, UnionOf(t.mergers[y].todo), t.live)
    {
      assert UnionOf(s.mergers[y].todo) !! phase.todo[0];
    }
    assert WorkExact(t.live, t.mergers);
  }

  /** The inputs are gone, all their documents are in one new immutable segment, or in none if there are
      none, and all other segments are as they were. */
  ghost predicate Replaced(live: map<SegmentId, Segment>, live': map<SegmentId, Segment>, inputs: set<SegmentId>, newId: SegmentId) {
    && inputs <= live.Keys && newId !in live
    && (forall i :: i in live && i !in inputs ==> i in live' && live'[i] == live[i])
    && (forall i :: i in live' ==> i == newId || (i in live && i !in inputs))
    && (newId in live' <==> exists i :: i in inputs && live[i].docs != {})
    && (newId in live' ==>
          && live'[newId].kind == Immutable
          && forall d :: d in live'[newId].docs <==> exists i :: i in inputs && d in live[i].docs)
  }

  lemma CommitReplaces(live: map<SegmentId, Segment>, view: map<SegmentId, Segment>, inputs: set<SegmentId>, newId: SegmentId)
    requires Unchanged(view, inputs, live) && newId !in live
    ensures Replaced(live, CommitMerge(live, view, inputs, newId), inputs, newId)
  {
    var docs := MergeOutput(view, inputs);
    forall i | i in inputs
      ensures live[i].docs <= docs
    {
      assert view[i] == live[i];
    }
    if docs != {} {
      assert (forall d :: d !in docs) ==> docs == {};
      var d :| d in docs;
    }
  }

  lemma MergeReplacesInputs(s: State, x: Xid, newId: SegmentId)
    requires Safe(s) && Exact(s) && MergerEnabled(s, x, Commit(newId))
    ensures Replaced(s.live, MergerEffect(s, x, Commit(newId)).live, s.mergers[x].todo[0], newId)
  {
    UnionOfHead(s.mergers[x].todo);
    CommitReplaces(s.live, s.mergers[x].view, s.mergers[x].todo[0], newId);
  }

  lemma ExactAfterFencing(s: State, v: VacuumStep)
    requires Safe(s) && Exact(s) && VacuumEnabled(s, v)
    requires v.Exclude? || v.LockMerges? || v.CollectStale? || v.Fail? || v.Unfence?
    ensures Exact(VacuumEffect(s, v))
  {
  }

  lemma ExactAfterListing(s: State, v: VacuumStep)
    requires Safe(s) && Exact(s) && VacuumEnabled(s, v)
    requires v.OpenReader? || v.WriteList? || v.PinSentinel? || v.UnlockMerges?
    ensures Exact(VacuumEffect(s, v))
  {
  }

  lemma DocsAfterMark(live: map<SegmentId, Segment>, v: Vacuum, id: SegmentId)
    requires Apart(live) && ListedLive(live, v) && ListedDocs(live, v) && DoomedOnlyIn(live, v)
    requires v.phase.Marking? && id in v.todo
    ensures var live' := MarkLive(live, v, id);
            && Apart(live')
            && DocsOf(live') == DocsOf(live) - DeletedInPlace(live, v, id)
            && DeletedInPlace(live, v, id) <= DocsOf(live)
            && ListedDocs(live', MarkVacuum(live, v, id))
            && DoomedOnlyIn(live', MarkVacuum(live, v, id))
  {
    DocsOfMarked(live, id, DeletedInPlace(live, v, id));
    assert forall d :: d in live[id].docs && d in v.doomed ==> d in Hits(v, id);
  }

  lemma MergersAfterMark(s: State, id: SegmentId)
    requires Safe(s) && Exact(s) && VacuumEnabled(s, Mark(id))
    ensures var s' := VacuumEffect(s, Mark(id));
            && WorkExact(s'.live, s'.mergers)
            && ViewsExact(s'.live, s'.mergers, Claimed(s'.mergeList) + DirtyList(s'.vacuum, s'.vacuumList))
  {
  }

  /** The same segments, from which the given documents are gone. */
  ghost predicate Deleted(live: map<SegmentId, Segment>, live': map<SegmentId, Segment>, from: set<SegmentId>, docs: set<Doc>) {
    && live'.Keys == live.Keys
    && (forall i :: i in live ==> live'[i].kind == live[i].kind)
    && (forall i :: i in live ==> live'[i].docs == if i in from then live[i].docs - docs else live[i].docs)
  }

  /** Looking at a mutable segment deletes exactly its reported documents; an immutable one is marked
      exactly if it has any. */
  lemma MarkDeletes(live: map<SegmentId, Segment>, v: Vacuum, id: SegmentId)
    requires ListedLive(live, v) && ListedDocs(live, v) && v.phase.Marking? && id in v.todo
    ensures var found := live[id].docs * v.doomed;
            && Deleted(live, MarkLive(live, v, id), if live[id].kind.Mutable? then {id} else {}, v.doomed)
            && DeletedInPlace(live, v, id) == (if live[id].kind.Mutable? then found else {})
            && MarkVacuum(live, v, id).marked == (if live[id].kind.Immutable? && found != {} then v.marked + {id} else v.marked)
            && MarkVacuum(live, v, id).todo == v.todo - {id}
  {
    assert Hits(v, id) == live[id].docs * v.doomed;
    assert live[id].docs - Hits(v, id) == live[id].docs - v.doomed;
  }

  lemma ExactOnceMarked(s: State, id: SegmentId)
    requires Safe(s) && Exact(s) && VacuumEnabled(s, Mark(id))
    ensures Exact(VacuumEffect(s, Mark(id)))
  {
    DocsAfterMark(s.live, s.vacuum, id);
    MergersAfterMark(s, id);
  }

  /** `found` are the reported documents of the segment. */
  lemma ExactAfterMark(s: State, id: SegmentId)
    requires Safe(s) && Exact(s) && VacuumEnabled(s, Mark(id))
    ensures Exact(VacuumEffect(s, Mark(id)))
    ensures var t, found := VacuumEffect(s, Mark(id)), s.live[id].docs * s.vacuum.doomed;
            && Deleted(s.live, t.live, if s.live[id].kind.Mutable? then {id} else {}, s.vacuum.doomed)
            && t.dead == s.dead + (if s.live[id].kind.Mutable? then found else {})
            && t.vacuum.marked == (if s.live[id].kind.Immutable? && found != {} then s.vacuum.marked + {id} else s.vacuum.marked)
            && t.vacuum.todo == s.vacuum.todo - {id}
  {
    MarkDeletes(s.live, s.vacuum, id);
    ExactOnceMarked(s, id);
  }

  lemma MergersAfterSave(s: State)
    requires Safe(s) && Exact(s) && VacuumEnabled(s, Save)
    ensures var s' := VacuumEffect(s, Save);
            && WorkExact(s'.live, s'.mergers)
            && ViewsExact(s'.live, s'.mergers, Claimed(s'.mergeList) + DirtyList(s'.vacuum, s'.vacuumList))
  {
  }

  /** When all segments have been looked at, saving deletes exactly the reported documents. */
  lemma SaveDeletesReported(live: map<SegmentId, Segment>, v: Vacuum)
    requires ListedLive(live, v) && ListedDocs(live, v) && DoomedOnlyIn(live, v) && v.phase.Marking? && v.todo == {}
    ensures Deleted(live, SaveDeletes(live, v), live.Keys, v.doomed)
    ensures AllHits(v) == DocsOf(live) * v.doomed
  {
    forall i | i in live
      ensures i in v.marked ==> Hits(v, i) == live[i].docs * v.doomed
      ensures i !in v.marked ==> live[i].docs - v.doomed == live[i].docs
    {
    }
    forall d | d in DocsOf(live) * v.doomed
      ensures d in AllHits(v)
    {
      var i :| i in live && d in live[i].docs;
      assert i in v.marked && d in Hits(v, i);
    }
  }

  lemma ExactAfterSave(s: State)
    requires Safe(s) && Exact(s) && VacuumEnabled(s, Save)
    ensures Exact(VacuumEffect(s, Save))
    ensures var t := VacuumEffect(s, Save);
            && Deleted(s.live, t.live, s.live.Keys, s.vacuum.doomed)
            && t.dead == s.dead + DocsOf(s.live) * s.vacuum.doomed
  {
    SaveDeletesReported(s.live, s.vacuum);
    DocsOfSaved(s.live, s.vacuum);
    MergersAfterSave(s);
  }

  lemma ExactAfterReturn(s: State, v: VacuumStep)
    requires Safe(s) && Exact(s) && VacuumEnabled(s, v) && (v.Barrier? || v.Return?)
    requires !LosesDelete(s, Vacuuming(v))
    ensures Exact(VacuumEffect(s, v))
  {
    if v.Return? && s.vacuum.phase.Saved? {
      forall x | x in s.mergers && s.mergers[x].Opened?
        ensures ViewExact(s.mergers[x].view, s.live, Claimed(s.mergeList))
      {
        assert ViewOk(s.mergers[x].view, s.live, Claimed(s.mergeList));
        assert forall i :: i in s.mergers[x].view ==> !OutdatedView(s, s.mergers[x].view, i);
      }
    }
  }

  lemma ExactAfterScan(s: State, c: ScanId, p: ScanStep)
    requires Safe(s) && Exact(s) && ScanEnabled(s, c, p)
    ensures Exact(ScanEffect(s, c, p))
  {
  }

  // ---------- Runs ----------

  ghost predicate IsRun(states: seq<State>, steps: seq<Step>) {
    && |states| == |steps| + 1
    && states[0] == Init()
    && forall k :: 0 <= k < |steps| ==> Enabled(states[k], steps[k]) && states[k + 1] == Apply(states[k], steps[k])
  }

  lemma MergerKeepsSafe(s: State, x: Xid, m: MergerStep)
    requires Safe(s) && Enabled(s, Merge(x, m))
    ensures Safe(Apply(s, Merge(x, m)))
  {
    match m
    case Plan(todo) => SafeAfterPlan(s, x, todo);
    case Commit(newId) => SafeAfterCommit(s, x, newId);
    case Start => SafeAfterLocking(s, x, m);
    case TakeLock => SafeAfterLocking(s, x, m);
    case RetakeLock => SafeAfterLocking(s, x, m);
    case Open => SafeAfterUnlocking(s, x, m);
    case GiveUp => SafeAfterUnlocking(s, x, m);
    case ReleaseLock => SafeAfterUnlocking(s, x, m);
    case Stop => SafeAfterStopping(s, x, m);
    case RemoveEntry => SafeAfterStopping(s, x, m);
    case _ => SafeAfterLeaving(s, x, m);
  }

  lemma VacuumKeepsSafe(s: State, v: VacuumStep)
    requires Safe(s) && Enabled(s, Vacuuming(v))
    ensures Safe(Apply(s, Vacuuming(v)))
  {
    if v.Mark? {
      SafeAfterMark(s, v.id);
    } else if v.WriteList? || v.PinSentinel? || v.UnlockMerges? {
      SafeAfterListing(s, v);
    } else if v.Save? || v.Barrier? || v.Return? {
      SafeAfterDeleting(s, v);
    } else {
      SafeAfterFencing(s, v);
    }
  }

  lemma StepKeepsSafe(s: State, step: Step)
    requires Safe(s) && Enabled(s, step)
    ensures Safe(Apply(s, step))
  {
    match step
    case Write(w) => SafeAfterWriter(s, w);
    case Merge(x, m) => MergerKeepsSafe(s, x, m);
    case Vacuuming(v) => VacuumKeepsSafe(s, v);
    case Scanning(c, p) =>
  }

  lemma StepKeepsExact(s: State, step: Step)
    requires Safe(s) && Exact(s) && Enabled(s, step) && !LosesDelete(s, step)
    ensures Exact(Apply(s, step))
  {
    match step
    case Write(w) => ExactAfterWriter(s, w);
    case Merge(x, m) =>
      if m.Plan? {
        ExactAfterPlan(s, x, m.todo);
      } else if m.Commit? {
        ExactAfterCommit(s, x, m.newId);
      } else {
        ExactAfterLocking(s, x, m);
      }
    case Vacuuming(v) =>
      if v.Mark? {
        ExactAfterMark(s, v.id);
      } else if v.Save? {
        ExactAfterSave(s);
      } else if v.Barrier? || v.Return? {
        ExactAfterReturn(s, v);
      } else if v.OpenReader? || v.WriteList? || v.PinSentinel? || v.UnlockMerges? {
        ExactAfterListing(s, v);
      } else {
        ExactAfterFencing(s, v);
      }
    case Scanning(c, p) => ExactAfterScan(s, c, p);
  }

  lemma {:induction false} AlwaysSafe(states: seq<State>, steps: seq<Step>, k: nat)
    requires IsRun(states, steps) && k < |states|
    ensures Safe(states[k])
  {
    if k > 0 {
      AlwaysSafe(states, steps, k - 1);
      StepKeepsSafe(states[k - 1], steps[k - 1]);
    }
  }

  /** No vacuum before position `k` returns while an opened merger holds an outdated view. */
  ghost predicate NoDeleteLost(states: seq<State>, steps: seq<Step>, k: nat)
    requires |states| == |steps| + 1 && k < |states|
  {
    forall j :: 0 <= j < k ==> !LosesDelete(states[j], steps[j])
  }

  lemma {:induction false} AlwaysExact(states: seq<State>, steps: seq<Step>, k: nat)
    requires IsRun(states, steps) && k < |states| && NoDeleteLost(states, steps, k)
    ensures Exact(states[k])
  {
    if k > 0 {
      AlwaysExact(states, steps, k - 1);
      AlwaysSafe(states, steps, k - 1);
      StepKeepsExact(states[k - 1], steps[k - 1]);
    }
  }

  // ---------- Main results ----------

  /** In every state of every run: no two merges claim the same segment; while the sentinel is
      pinned the segments of the vacuum are listed and live, and no merge claims a listed segment; and
      when the vacuum has found no merge active, none is until it has listed its segments. */
  lemma MergesAndVacuumNeverOverlap(states: seq<State>, steps: seq<Step>, k: nat)
    requires IsRun(states, steps) && k < |states|
    ensures var s := states[k];
            && (forall x, y :: x in s.mergeList && y in s.mergeList && x != y ==> s.mergeList[x] !! s.mergeList[y])
            && (s.sentinelPinned ==> s.vacuum.view.Keys <= s.vacuumList && s.vacuum.view.Keys <= s.live.Keys)
            && (s.sentinelPinned ==> forall x :: x in s.mergeList ==> s.mergeList[x] !! s.vacuumList)
            && (MergeListMustBeEmpty(s.vacuum.phase) ==> s.mergeList == map[])
  {
    AlwaysSafe(states, steps, k);
  }

  /** Exactly when the vacuum's assertion that no merge is active holds: when no merger that crashed and
      left an entry behind is in a transaction that has still to end. */
  lemma AssertionHoldsIff(states: seq<State>, steps: seq<Step>, k: nat)
    requires IsRun(states, steps) && k < |steps| && steps[k] == Vacuuming(CollectStale)
    ensures Enabled(states[k + 1], Vacuuming(Unfence)) <==> states[k].mergeList.Keys !! states[k].ending
    ensures Enabled(states[k + 1], Vacuuming(Fail)) <==> !(states[k].mergeList.Keys !! states[k].ending)
  {
    AlwaysSafe(states, steps, k);
    var s, t := states[k], states[k + 1];
    assert Enabled(s, steps[k]) && t == Apply(s, steps[k]);
    assert t.mergeList.Keys == s.mergeList.Keys * s.ending;
    assert t.mergeList == map[] <==> t.mergeList.Keys == {};
  }

  /** The lookups that would otherwise abort the server process always succeed: a merge finds every
      segment it replaces, removes the entry it wrote, and the vacuum finds every segment it edits. */
  lemma LookupsSucceed(states: seq<State>, steps: seq<Step>, k: nat)
    requires IsRun(states, steps) && k < |steps|
    ensures steps[k].Merge? && steps[k].merger.Commit? ==>
              states[k].mergers[steps[k].xid].todo[0] <= states[k].live.Keys
    ensures steps[k].Merge? && steps[k].merger.RemoveEntry? ==> steps[k].xid in states[k].mergeList
    ensures steps[k].Vacuuming? && steps[k].vacuum.Mark? ==> steps[k].vacuum.id in states[k].live
    ensures steps[k] == Vacuuming(Save) ==> states[k].vacuum.marked <= states[k].live.Keys
  {
    AlwaysSafe(states, steps, k);
    if steps[k].Merge? && steps[k].merger.Commit? {
      UnionOfHead(states[k].mergers[steps[k].xid].todo);
    }
  }

  // ---------- The history of a run, told by its steps alone ----------

  function WrittenBy(step: Step): set<Doc> {
    if step.Write? then step.writer.docs else {}
  }

  /** The documents written. */
  function Written(steps: seq<Step>): set<Doc> {
    if steps == [] then {} else Written(steps[..|steps| - 1]) + WrittenBy(steps[|steps| - 1])
  }

  /** The documents the callback of the last vacuum reports dead. */
  function Reported(steps: seq<Step>): set<Doc> {
    if steps == [] then {}
    else
      var last := steps[|steps| - 1];
      if last.Vacuuming? && last.vacuum.Exclude? then last.vacuum.doomed else Reported(steps[..|steps| - 1])
  }

  /** The documents reported dead to all vacuums that have returned. */
  function Settled(steps: seq<Step>): set<Doc> {
    if steps == [] then {}
    else
      var before := steps[..|steps| - 1];
      Settled(before) + if steps[|steps| - 1] == Vacuuming(Return) then Reported(before) else {}
  }

  predicate Deleting(phase: VacuumPhase) {
    phase.Marking? || AfterSave(phase)
  }

  /** What a step adds to the history. Only reported documents die, and only while a vacuum marks. */
  lemma StepHistory(s: State, step: Step)
    requires Enabled(s, step)
    ensures var t := Apply(s, step);
            && t.inserted == s.inserted + WrittenBy(step)
            && t.vacuum.doomed == (if step.Vacuuming? && step.vacuum.Exclude? then step.vacuum.doomed else s.vacuum.doomed)
            && t.dead - s.dead <= s.vacuum.doomed
            && (t.dead != s.dead ==> s.vacuum.phase.Marking?)
  {
    match step
    case Write(w) =>
    case Merge(x, m) => MergeHistory(s, x, m);
    case Vacuuming(v) => VacuumHistory(s, v);
    case Scanning(c, p) =>
  }

  lemma MergeHistory(s: State, x: Xid, m: MergerStep)
    requires MergerEnabled(s, x, m)
    ensures MergerEffect(s, x, m).inserted == s.inserted
  {
  }

  lemma VacuumHistory(s: State, v: VacuumStep)
    requires VacuumEnabled(s, v)
    ensures var t := VacuumEffect(s, v);
            && t.inserted == s.inserted
            && t.vacuum.doomed == (if v.Exclude? then v.doomed else s.vacuum.doomed)
            && t.dead - s.dead <= s.vacuum.doomed
            && (t.dead != s.dead ==> s.vacuum.phase.Marking?)
  {
  }

  /** A vacuum that has begun to delete goes on to its return, and returns only then. */
  lemma DeletingEndsInReturn(s: State, step: Step)
    requires Enabled(s, step)
    ensures Deleting(s.vacuum.phase) ==> step == Vacuuming(Return) || Deleting(Apply(s, step).vacuum.phase)
    ensures step == Vacuuming(Return) ==> Deleting(s.vacuum.phase)
    ensures step.Vacuuming? && step.vacuum.Exclude? ==> !Deleting(s.vacuum.phase)
  {
    if step.Vacuuming? && Deleting(s.vacuum.phase) {
      var v := step.vacuum;
      assert v.Mark? || v.Save? || v.Barrier? || v.Return?;
    }
  }

  /** In every run: what has been inserted, what is reported, and that nothing else has died. */
  lemma {:induction false} History(states: seq<State>, steps: seq<Step>, k: nat)
    requires IsRun(states, steps) && k < |states|
    ensures var s, past := states[k], steps[..k];
            && s.inserted == Written(past) && s.vacuum.doomed == Reported(past)
            && s.dead <= Settled(past) + (if Deleting(s.vacuum.phase) then Reported(past) else {})
  {
    if k > 0 {
      History(states, steps, k - 1);
      StepHistory(states[k - 1], steps[k - 1]);
      DeletingEndsInReturn(states[k - 1], steps[k - 1]);
      assert steps[..k][..k - 1] == steps[..k - 1];
    }
  }

  lemma {:induction false} ReportedBy(steps: seq<Step>, d: Doc) returns (j: nat)
    requires d in Reported(steps)
    ensures j < |steps| && steps[j].Vacuuming? && steps[j].vacuum.Exclude? && d in steps[j].vacuum.doomed
  {
    j := |steps| - 1;
    if !(steps[j].Vacuuming? && steps[j].vacuum.Exclude?) {
      j := ReportedBy(steps[..j], d);
    }
  }

  lemma {:induction false} SettledBy(steps: seq<Step>, d: Doc) returns (j: nat)
    requires d in Settled(steps)
    ensures j < |steps| && steps[j].Vacuuming? && steps[j].vacuum.Exclude? && d in steps[j].vacuum.doomed
  {
    var before := steps[..|steps| - 1];
    if d in Settled(before) {
      j := SettledBy(before, d);
    } else {
      j := ReportedBy(before, d);
    }
  }

  /** In every run, whatever is dead was reported dead to a vacuum. */
  lemma DeadWasReported(states: seq<State>, steps: seq<Step>, k: nat, d: Doc) returns (j: nat)
    requires IsRun(states, steps) && k < |states| && d in states[k].dead
    ensures j < k && steps[j].Vacuuming? && steps[j].vacuum.Exclude? && d in steps[j].vacuum.doomed
  {
    History(states, steps, k);
    if d in Settled(steps[..k]) {
      j := SettledBy(steps[..k], d);
    } else {
      j := ReportedBy(steps[..k], d);
    }
  }

  /** What was reported to a vacuum that has saved is dead. */
  lemma SavedIsDead(states: seq<State>, steps: seq<Step>, k: nat)
    requires IsRun(states, steps) && k < |states| && NoDeleteLost(states, steps, k)
    ensures AfterSave(states[k].vacuum.phase) ==> Reported(steps[..k]) <= states[k].dead
  {
    History(states, steps, k);
    AlwaysExact(states, steps, k);
    var s := states[k];
    if AfterSave(s.vacuum.phase) {
      assert DocsOf(s.live) !! s.vacuum.doomed;
      assert s.vacuum.doomed <= s.inserted;
    }
  }

  /** And so is what was reported to a vacuum that has returned. */
  lemma {:induction false} SettledIsDead(states: seq<State>, steps: seq<Step>, k: nat)
    requires IsRun(states, steps) && k < |states| && NoDeleteLost(states, steps, k)
    ensures Settled(steps[..k]) <= states[k].dead
  {
    if k > 0 {
      SettledIsDead(states, steps, k - 1);
      SavedIsDead(states, steps, k - 1);
      DeadStaysDead(states, steps, k - 1, k);
      assert Enabled(states[k - 1], steps[k - 1]);
      assert steps[..k][..k - 1] == steps[..k - 1];
    }
  }

  /** The live documents are exactly those written and not dead, each in one segment; dead are exactly
      those reported to the vacuums that have returned and, of those reported to the vacuum at work,
      some once it deletes and all once it has saved. */
  lemma DocumentsConserved(states: seq<State>, steps: seq<Step>, k: nat)
    requires IsRun(states, steps) && k < |states| && NoDeleteLost(states, steps, k)
    ensures DocsOf(states[k].live) == Written(steps[..k]) - states[k].dead
    ensures forall i, j :: i in states[k].live && j in states[k].live && i != j ==>
              states[k].live[i].docs !! states[k].live[j].docs
    ensures var past, phase := steps[..k], states[k].vacuum.phase;
            && Settled(past) <= states[k].dead <= Settled(past) + Reported(past)
            && (!Deleting(phase) ==> states[k].dead == Settled(past))
            && (AfterSave(phase) ==> states[k].dead == Settled(past) + Reported(past))
  {
    AlwaysExact(states, steps, k);
    History(states, steps, k);
    SavedIsDead(states, steps, k);
    SettledIsDead(states, steps, k);
  }

  /** A scan that reads the segment list finds exactly the documents written and not dead. */
  lemma ScanReadsLiveDocuments(states: seq<State>, steps: seq<Step>, k: nat, c: ScanId)
    requires IsRun(states, steps) && k < |steps| && NoDeleteLost(states, steps, k)
    requires steps[k] == Scanning(c, LoadSegments)
    ensures c in states[k + 1].scans && states[k + 1].scans[c].docs == Written(steps[..k]) - states[k].dead
  {
    DocumentsConserved(states, steps, k);
    assert Enabled(states[k], steps[k]);
  }

  lemma {:induction false} DeadStaysDead(states: seq<State>, steps: seq<Step>, j: nat, k: nat)
    requires IsRun(states, steps) && j <= k < |states|
    ensures states[j].dead <= states[k].dead
  {
    if j < k {
      DeadStaysDead(states, steps, j, k - 1);
      assert states[k] == Apply(states[k - 1], steps[k - 1]);
    }
  }

  /** Once `ambulkdelete` has returned, no document its callback reported dead is ever found again. */
  lemma DeletesAreFinal(states: seq<State>, steps: seq<Step>, j: nat, k: nat)
    requires IsRun(states, steps) && j < k < |states| && steps[j] == Vacuuming(Return)
    requires NoDeleteLost(states, steps, k)
    ensures DocsOf(states[k].live) !! states[j].vacuum.doomed
  {
    AlwaysExact(states, steps, j);
    AlwaysExact(states, steps, k);
    DeadStaysDead(states, steps, j, k);
    var doomed := states[j].vacuum.doomed;
    assert DocsOf(states[j].live) !! doomed;
    assert doomed <= states[j].dead;
  }

  lemma StepAfterSave(s: State, step: Step)
    requires Enabled(s, step) && AfterSave(s.vacuum.phase) && step != Vacuuming(Return)
    ensures var phase := Apply(s, step).vacuum.phase;
            phase == if step == Vacuuming(Barrier) then Fenced else s.vacuum.phase
  {
    match step
    case Write(w) =>
    case Merge(x, m) =>
    case Vacuuming(v) => assert v.Barrier?;
    case Scanning(c, p) =>
  }

  predicate AfterSave(phase: VacuumPhase) {
    phase.Saved? || phase.Fenced?
  }

  /** How one step changes the phase of a vacuum that is saving or has saved. */
  predicate PhaseMoves(before: VacuumPhase, step: Step, after: VacuumPhase) {
    after == if step == Vacuuming(Save) then Saved else if step == Vacuuming(Barrier) then Fenced else before
  }

  lemma PhaseAfterSave(states: seq<State>, steps: seq<Step>, k: nat)
    requires IsRun(states, steps) && k < |steps|
    requires steps[k] == Vacuuming(Save) || (AfterSave(states[k].vacuum.phase) && steps[k] != Vacuuming(Return))
    ensures PhaseMoves(states[k].vacuum.phase, steps[k], states[k + 1].vacuum.phase)
  {
    if steps[k] != Vacuuming(Save) {
      StepAfterSave(states[k], steps[k]);
    }
  }

  /** Going from saved to fenced takes a barrier. */
  lemma {:induction false} FencedByBarrier(states: seq<State>, steps: seq<Step>, save: nat, k: nat) returns (b: nat)
    requires |states| == |steps| + 1 && save < k < |states| && steps[save] == Vacuuming(Save)
    requires forall j :: save <= j < k && (j == save || AfterSave(states[j].vacuum.phase)) ==>
                           PhaseMoves(states[j].vacuum.phase, steps[j], states[j + 1].vacuum.phase)
    ensures AfterSave(states[k].vacuum.phase)
    ensures states[k].vacuum.phase.Fenced? ==> save < b < k && steps[b] == Vacuuming(Barrier)
  {
    b := 0;
    if save + 1 < k {
      b := FencedByBarrier(states, steps, save, k - 1);
    }
    assert PhaseMoves(states[k - 1].vacuum.phase, steps[k - 1], states[k].vacuum.phase);
    if save < k - 1 && steps[k - 1] == Vacuuming(Barrier) {
      b := k - 1;
    }
  }

  /** Between saving delete metas and returning, the vacuum passes its barrier. */
  lemma BarrierBetween(states: seq<State>, steps: seq<Step>, save: nat, k: nat) returns (b: nat)
    requires IsRun(states, steps) && save < k < |states|
    requires steps[save] == Vacuuming(Save)
    requires forall j :: save < j < k ==> steps[j] != Vacuuming(Return)
    ensures states[k].vacuum.phase.Saved? || states[k].vacuum.phase.Fenced?
    ensures states[k].vacuum.phase.Fenced? ==> save < b < k && steps[b] == Vacuuming(Barrier)
  {
    forall j | save <= j < k && (j == save || AfterSave(states[j].vacuum.phase))
      ensures PhaseMoves(states[j].vacuum.phase, steps[j], states[j + 1].vacuum.phase)
    {
      PhaseAfterSave(states, steps, j);
    }
    b := FencedByBarrier(states, steps, save, k);
  }

  lemma {:induction false} OpenedSince(states: seq<State>, steps: seq<Step>, b: nat, k: nat, c: ScanId) returns (j: nat)
    requires IsRun(states, steps) && b <= k < |states|
    requires c !in states[b].scans && c in states[k].scans
    ensures b <= j < k && steps[j] == Scanning(c, PinCleanupLock)
  {
    assert Enabled(states[k - 1], steps[k - 1]) && states[k] == Apply(states[k - 1], steps[k - 1]);
    if c in states[k - 1].scans {
      j := OpenedSince(states, steps, b, k - 1, c);
    } else {
      j := k - 1;
    }
  }

  /** Whenever a vacuum saved delete metas, every scan still open when it returns was opened after
      the save. */
  lemma ScansAtReturnAreNew(states: seq<State>, steps: seq<Step>, save: nat, ret: nat, c: ScanId)
    requires IsRun(states, steps) && save < ret < |steps|
    requires steps[save] == Vacuuming(Save) && steps[ret] == Vacuuming(Return)
    requires forall j :: save < j < ret ==> steps[j] != Vacuuming(Return)
    requires states[ret].vacuum.marked != {}
    requires c in states[ret].scans
    ensures exists j :: save < j < ret && steps[j] == Scanning(c, PinCleanupLock)
  {
    var b := BarrierBetween(states, steps, save, ret);
    assert Enabled(states[b], steps[b]);
    var j := OpenedSince(states, steps, b, ret, c);
    assert Enabled(states[j], steps[j]);
  }

  /** ... and it holds no document that the callback reported dead. */
  lemma ScansAtReturnSeeNoDeadDocument(states: seq<State>, steps: seq<Step>, ret: nat, c: ScanId)
    requires IsRun(states, steps) && ret < |steps| && steps[ret] == Vacuuming(Return)
    requires NoDeleteLost(states, steps, ret)
    requires states[ret].vacuum.marked != {}
    requires c in states[ret].scans
    ensures states[ret].scans[c].docs !! states[ret].vacuum.doomed
  {
    AlwaysExact(states, steps, ret);
    assert Enabled(states[ret], steps[ret]);
  }

  // ---------- When the barrier is skipped ----------

  /** After such a return, the merger can plan to merge the outdated segment on its own. */
  lemma OutdatedViewIsPlanned(s: State, x: Xid, i: SegmentId)
    requires Safe(s) && Enabled(s, Vacuuming(Return)) && s.vacuum.phase.Saved?
    requires x in s.mergers && s.mergers[x].Opened? && i in s.mergers[x].view && OutdatedView(s, s.mergers[x].view, i)
    ensures var s1 := Apply(s, Vacuuming(Return));
            && Enabled(s1, Merge(x, Plan([{i}])))
            && var s2 := Apply(s1, Merge(x, Plan([{i}])));
            && Enabled(s2, Merge(x, ReleaseLock))
            && var s3 := Apply(s2, Merge(x, ReleaseLock));
            && x in s3.mergers && s3.mergers[x] == Merging(s.mergers[x].view, [{i}])
            && s3.live == s.live && s3.used == s.used && s3.inserted == s.inserted && s3.dead == s.dead
  {
    assert UnionOf([{i}]) == {i} by {
      assert i in [{i}][0];
    }
  }

  /** Committing an outdated segment breaks conservation. */
  lemma OutdatedCommitBreaksConservation(s: State, x: Xid, view: map<SegmentId, Segment>, i: SegmentId, newId: SegmentId)
    requires x in s.mergers && s.mergers[x] == Merging(view, [{i}]) && newId !in s.used && newId !in s.live
    requires Apart(s.live) && Conserved(s.live, s.inserted, s.dead)
    requires i in view && i in s.live && view[i].docs != s.live[i].docs
    ensures Enabled(s, Merge(x, Commit(newId)))
    ensures var t := Apply(s, Merge(x, Commit(newId)));
            !(Apart(t.live) && Conserved(t.live, t.inserted, t.dead))
  {
    assert MergeOutput(view, {i}) == view[i].docs;
    ReplacingChangesDocs(s.live, i, view[i].docs, newId);
  }

  /** `NoDeleteLost` is as weak as it can be: from any state in which a vacuum returns under an
      outdated view, the merger that holds the view can go on to break conservation. */
  lemma OutdatedViewBreaksConservation(s: State, x: Xid, i: SegmentId, newId: SegmentId)
    requires Safe(s) && Exact(s) && Enabled(s, Vacuuming(Return)) && s.vacuum.phase.Saved?
    requires x in s.mergers && s.mergers[x].Opened? && i in s.mergers[x].view && OutdatedView(s, s.mergers[x].view, i)
    requires newId !in s.used
    ensures var s1 := Apply(s, Vacuuming(Return));
            && Enabled(s1, Merge(x, Plan([{i}])))
            && var s2 := Apply(s1, Merge(x, Plan([{i}])));
            && Enabled(s2, Merge(x, ReleaseLock))
            && var s3 := Apply(s2, Merge(x, ReleaseLock));
            && Enabled(s3, Merge(x, Commit(newId)))
            && var s4 := Apply(s3, Merge(x, Commit(newId)));
            && !(Apart(s4.live) && Conserved(s4.live, s4.inserted, s4.dead))
  {
    OutdatedViewIsPlanned(s, x, i);
    var s1 := Apply(s, Vacuuming(Return));
    var s3 := Apply(Apply(s1, Merge(x, Plan([{i}]))), Merge(x, ReleaseLock));
    OutdatedCommitBreaksConservation(s3, x, s.mergers[x].view, i, newId);
  }

  /** Replacing a segment by one with other documents changes the documents of the index, or puts
      one of them in two segments. */
  lemma ReplacingChangesDocs(live: map<SegmentId, Segment>, i: SegmentId, docs: set<Doc>, newId: SegmentId)
    requires Apart(live) && i in live && newId !in live && docs != live[i].docs
    ensures var rest := live - {i};
            var live' := if docs == {} then rest else rest[newId := Segment(Immutable, docs)];
            Apart(live') ==> DocsOf(live') != DocsOf(live)
  {
    var rest := live - {i};
    var live' := if docs == {} then rest else rest[newId := Segment(Immutable, docs)];
    if Apart(live') {
      if d :| d in docs && d !in live[i].docs {
        assert newId in live' && d in live'[newId].docs;
        assert d in DocsOf(live');
        forall j | j in live && j != i
          ensures d !in live[j].docs
        {
          assert j in live' && live'[j].docs !! live'[newId].docs;
        }
      } else {
        var d :| d in live[i].docs && d !in docs;
        assert d in DocsOf(live);
      }
    }
  }

  lemma Extend(states: seq<State>, steps: seq<Step>, step: Step) returns (states': seq<State>, steps': seq<Step>, s: State)
    requires IsRun(states, steps) && Enabled(states[|steps|], step)
    ensures IsRun(states', steps') && |steps'| == |steps| + 1
    ensures s == states'[|steps'|] == Apply(states[|steps|], step)
    ensures states' == states + [s] && steps' == steps + [step]
  {
    s := Apply(states[|steps|], step);
    states', steps' := states + [s], steps + [step];
  }

  /** A vacuum about to look at a frozen mutable segment with documents 7 and 8, both held by an open
      scan, when its callback reports 7 dead. */
  function AboutToMark(): State {
    var seg := map[1 := Segment(Mutable(true), {7, 8})];
    State(seg, {1}, map[], {}, map[], Free, Vacuum(Marking, {7}, seg, {1}, {}, false), {1}, true,
          map[0 := Scan({7, 8})], {7, 8}, {})
  }

  /** A segment with documents 7 and 8, and a scan that has read it. */
  function Scanned(): State {
    Init().(live := AboutToMark().live, used := {1}, scans := AboutToMark().scans, inserted := {7, 8})
  }

  lemma SegmentIsScanned() returns (states: seq<State>, steps: seq<Step>)
    ensures IsRun(states, steps) && |steps| == 3 && states[3] == Scanned()
  {
    states, steps := [Init()], [];
    var s := Init();
    states, steps, s := Extend(states, steps, Write(CreateSegment(1, Mutable(true), {7, 8})));
    states, steps, s := Extend(states, steps, Scanning(0, PinCleanupLock));
    states, steps, s := Extend(states, steps, Scanning(0, LoadSegments));
    assert DocsOf(s.live) == {7, 8} by {
      assert 1 in s.live && s.live[1].docs == {7, 8};
    }
  }

  lemma ScanThenVacuum() returns (states: seq<State>, steps: seq<Step>)
    ensures IsRun(states, steps) && |steps| == 7
    ensures states[7] == Scanned().(vacuum := Vacuum(Unfenced, {7}, map[], {}, {}, false), mergeLock := ByVacuum)
  {
    states, steps := SegmentIsScanned();
    var s := states[3];
    states, steps, s := Extend(states, steps, Vacuuming(Exclude({7})));
    states, steps, s := Extend(states, steps, Vacuuming(LockMerges));
    states, steps, s := Extend(states, steps, Vacuuming(CollectStale));
    states, steps, s := Extend(states, steps, Vacuuming(Unfence));
  }

  lemma VacuumListsSegment() returns (states: seq<State>, steps: seq<Step>)
    ensures IsRun(states, steps) && |steps| == 11 && states[11] == AboutToMark()
  {
    states, steps := ScanThenVacuum();
    var s := states[7];
    states, steps, s := Extend(states, steps, Vacuuming(OpenReader));
    states, steps, s := Extend(states, steps, Vacuuming(WriteList({})));
    states, steps, s := Extend(states, steps, Vacuuming(PinSentinel));
    states, steps, s := Extend(states, steps, Vacuuming(UnlockMerges));
  }

  lemma MergerOpens() returns (states: seq<State>, steps: seq<Step>)
    ensures IsRun(states, steps) && |steps| == 14
    ensures states[14] == AboutToMark().(mergeLock := ByMerger(5), mergers := map[5 := Opened(AboutToMark().live)])
  {
    states, steps := VacuumListsSegment();
    var s := states[11];
    states, steps, s := Extend(states, steps, Merge(5, Start));
    states, steps, s := Extend(states, steps, Merge(5, TakeLock));
    states, steps, s := Extend(states, steps, Merge(5, Open));
  }

  /** A merger opens the segments before the vacuum edits one of them in place. */
  lemma MergerOpensThenVacuumMarks() returns (states: seq<State>, steps: seq<Step>)
    ensures IsRun(states, steps) && |steps| == 15
    ensures states[15] == AboutToMark().(
                            live := map[1 := Segment(Mutable(true), {8})], dead := {7}, mergeLock := ByMerger(5),
                            mergers := map[5 := Opened(AboutToMark().live)],
                            vacuum := Vacuum(Marking, {7}, AboutToMark().live, {}, {}, true))
  {
    states, steps := MergerOpens();
    var s := states[14];
    assert Hits(s.vacuum, 1) == {7} && {7, 8} - {7} == {8};
    states, steps, s := Extend(states, steps, Vacuuming(Mark(1)));
  }

  /** The vacuum has no delete metas to save, so it returns without a barrier while the scan still
      holds document 7. */
  lemma ReturnWithoutBarrier() returns (states: seq<State>, steps: seq<Step>)
    ensures IsRun(states, steps) && |steps| == 17
    ensures steps[16] == Vacuuming(Return) && LosesDelete(states[16], steps[16])
    ensures states[16].vacuum.doomed == {7} && states[16].scans == map[0 := Scan({7, 8})]
    ensures states[17] == AboutToMark().(
                            live := map[1 := Segment(Mutable(true), {8})], dead := {7}, mergeLock := ByMerger(5),
                            mergers := map[5 := Opened(AboutToMark().live)], sentinelPinned := false,
                            vacuum := Vacuum(Off, {7}, AboutToMark().live, {}, {}, true))
  {
    states, steps := MergerOpensThenVacuumMarks();
    var s := states[15];
    assert SaveDeletes(s.live, s.vacuum) == s.live;
    states, steps, s := Extend(states, steps, Vacuuming(Save));
    assert OutdatedView(s, s.mergers[5].view, 1) by {
      assert 7 in s.mergers[5].view[1].docs && 7 !in s.live[1].docs;
    }
    states, steps, s := Extend(states, steps, Vacuuming(Return));
  }

  lemma MergerPlansAfterReturn() returns (states: seq<State>, steps: seq<Step>)
    ensures IsRun(states, steps) && |steps| == 19 && steps[16] == Vacuuming(Return)
    ensures states[16].vacuum.doomed == {7}
    ensures var s := states[19];
            && s.live == map[1 := Segment(Mutable(true), {8})] && s.used == {1} && s.dead == {7}
            && s.mergers == map[5 := Merging(AboutToMark().live, [{1}])]
  {
    states, steps := ReturnWithoutBarrier();
    var s := states[17];
    var todo := [{1}];
    assert UnionOf(todo) == {1} by {
      assert 1 in todo[0];
    }
    states, steps, s := Extend(states, steps, Merge(5, Plan(todo)));
    states, steps, s := Extend(states, steps, Merge(5, ReleaseLock));
  }

  /** Without the barrier the delete is lost: the merger that had opened the segment before it was
      edited merges it after the vacuum returned, and document 7 is live again. */
  lemma SkippedBarrierRevivesDocument() returns (states: seq<State>, steps: seq<Step>)
    ensures IsRun(states, steps) && |steps| == 20 && steps[16] == Vacuuming(Return)
    ensures 7 in states[16].vacuum.doomed
    ensures 7 in states[20].dead && 7 in DocsOf(states[20].live)
  {
    states, steps := MergerPlansAfterReturn();
    var s := states[19];
    states, steps, s := Extend(states, steps, Merge(5, Commit(2)));
    assert 7 in MergeOutput(AboutToMark().live, {1});
    assert 2 in s.live && 7 in s.live[2].docs;
  }

  // ---------- When a crashed merger's transaction has not ended ----------

  /** A merger that has claimed the only segment of the index. */
  function ClaimedState(): State {
    var seg := map[1 := Segment(Immutable, {7})];
    Init().(live := seg, used := {1}, inserted := {7}, mergers := map[5 := Merging(seg, [{1}])],
            mergeList := map[5 := {1}])
  }

  lemma MergerOpensSegment() returns (states: seq<State>, steps: seq<Step>)
    ensures IsRun(states, steps) && |steps| == 4
    ensures states[4] == ClaimedState().(
                           mergers := map[5 := Opened(ClaimedState().live)], mergeList := map[], mergeLock := ByMerger(5))
  {
    states, steps := [Init()], [];
    var s := Init();
    states, steps, s := Extend(states, steps, Write(CreateSegment(1, Immutable, {7})));
    states, steps, s := Extend(states, steps, Merge(5, Start));
    states, steps, s := Extend(states, steps, Merge(5, TakeLock));
    states, steps, s := Extend(states, steps, Merge(5, Open));
  }

  lemma MergerClaimsSegment() returns (states: seq<State>, steps: seq<Step>)
    ensures IsRun(states, steps) && |steps| == 6 && states[6] == ClaimedState()
  {
    states, steps := MergerOpensSegment();
    var s := states[4];
    var todo := [{1}];
    assert UnionOf(todo) == {1} by {
      assert 1 in todo[0];
    }
    states, steps, s := Extend(states, steps, Merge(5, Plan(todo)));
    states, steps, s := Extend(states, steps, Merge(5, ReleaseLock));
  }

  lemma CrashThenVacuum() returns (states: seq<State>, steps: seq<Step>)
    ensures IsRun(states, steps) && |steps| == 8 && steps[6] == Merge(5, Crash)
    ensures states[8] == ClaimedState().(
                           mergers := map[], ending := {5}, vacuum := Vacuum(Exclusive, {7}, map[], {}, {}, false))
  {
    states, steps := MergerClaimsSegment();
    var s := states[6];
    states, steps, s := Extend(states, steps, Merge(5, Crash));
    states, steps, s := Extend(states, steps, Vacuuming(Exclude({7})));
  }

  /** The merger crashes, its locks are gone, and the vacuum comes before its transaction has ended. */
  lemma UnendedTransactionFailsVacuum() returns (states: seq<State>, steps: seq<Step>)
    ensures IsRun(states, steps) && |steps| == 10 && steps[6] == Merge(5, Crash)
    ensures Enabled(states[10], Vacuuming(Fail)) && !Enabled(states[10], Vacuuming(Unfence))
  {
    states, steps := CrashThenVacuum();
    var s := states[8];
    states, steps, s := Extend(states, steps, Vacuuming(LockMerges));
    states, steps, s := Extend(states, steps, Vacuuming(CollectStale));
    assert 5 in s.mergeList;
  }
}
