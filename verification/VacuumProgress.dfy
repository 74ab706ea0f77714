/** The locks of the merge and vacuum protocol cannot block each other for good: while a merger or a
    vacuum is at work, one of them can go on or a scan can close, and all of them can finish, with
    everything merged that the merge policy chooses. */
module VacuumProgress {
  import opened VacuumProtocol

  /** What the merge policy chooses for a merger that has opened the index, if anything. */
  type Policy = (State, Xid) -> seq<set<SegmentId>>

  ghost predicate Chooses(policy: Policy) {
    forall s: State, x: Xid :: x in s.mergers && s.mergers[x].Opened? && policy(s, x) != [] ==>
      AllowedPlan(s, s.mergers[x].view, policy(s, x))
  }

  predicate AtWork(s: State) {
    s.mergers != map[] || !s.vacuum.phase.Off?
  }

  /** A merger plans what the policy chooses, gives up only if that is nothing, and stops only when
      all of it is merged. */
  ghost predicate Diligent(policy: Policy, s: State, x: Xid, m: MergerStep) {
    && !m.Start? && !m.Crash?
    && (m.GiveUp? ==> x in s.mergers && s.mergers[x].Opened? && policy(s, x) == [])
    && (m.Plan? ==> m.todo == policy(s, x))
    && (m.Stop? ==> x in s.mergers && s.mergers[x].Merging? && s.mergers[x].todo == [])
  }

  /** A step that brings work under way nearer to its end: no new merger, vacuum or scan, no writing
      and no crash. */
  ghost predicate Helpful(policy: Policy, s: State, step: Step) {
    match step
    case Write(_) => false
    case Merge(x, m) => Diligent(policy, s, x, m)
    case Vacuuming(v) => !v.Exclude?
    case Scanning(_, p) => p.Close?
  }

  // ---------- How far there is to go ----------

  /** Until a merger has planned, and from then on. */
  function EarlyRank(phase: MergerPhase): nat {
    match phase
    case Waiting => 3
    case Locked => 2
    case Opened(_) => 1
    case _ => 0
  }

  function LateRank(phase: MergerPhase): nat {
    match phase
    case Planned(_, todo) => 5 + |todo|
    case Merging(_, todo) => 4 + |todo|
    case Stopped => 3
    case Relocked => 2
    case Leaving => 1
    case _ => 0
  }

  type Ranks = map<Xid, nat>

  function Early(mergers: map<Xid, MergerPhase>): Ranks {
    map x | x in mergers :: EarlyRank(mergers[x])
  }

  function Late(mergers: map<Xid, MergerPhase>): Ranks {
    map x | x in mergers :: LateRank(mergers[x])
  }

  function VacuumRank(phase: VacuumPhase): nat {
    match phase
    case Exclusive => 10
    case ExclusiveLocked => 9
    case Collected => 8
    case Unfenced => 7
    case Reading => 6
    case Listed => 5
    case Pinned => 4
    case Marking => 3
    case Saved => 2
    case Fenced => 1
    case Off => 0
  }

  function AtLeast(ranks: Ranks, k: nat): set<Xid> {
    set x | x in ranks && k <= ranks[x]
  }

  /** All ranks together, up to `k` each. */
  function Weight(ranks: Ranks, k: nat): nat {
    if k == 0 then 0 else Weight(ranks, k - 1) + |AtLeast(ranks, k)|
  }

  ghost predicate Within(ranks: Ranks, k: nat) {
    forall x :: x in ranks ==> ranks[x] <= k
  }

  lemma {:induction false} SmallerSet(a: set<Xid>, b: set<Xid>)
    requires a <= b
    ensures |a| <= |b|
    decreases |a|
  {
    if a != {} {
      assert (forall x :: x !in a) ==> a == {};
      var x :| x in a;
      SmallerSet(a - {x}, b - {x});
    }
  }

  /** One rank gets lower, or goes. */
  ghost predicate Lowers(m: Ranks, t: Ranks, x: Xid) {
    && x in m && 0 < m[x]
    && (forall y :: y in t ==> y in m && (y != x ==> t[y] == m[y]))
    && (x in t ==> t[x] < m[x])
  }

  lemma {:induction false} WeightDrops(m: Ranks, t: Ranks, x: Xid, k: nat)
    requires Lowers(m, t, x)
    ensures Weight(t, k) <= Weight(m, k)
    ensures m[x] <= k ==> Weight(t, k) < Weight(m, k)
  {
    if 0 < k {
      WeightDrops(m, t, x, k - 1);
      SmallerSet(AtLeast(t, k), AtLeast(m, k));
      if m[x] == k {
        SmallerSet(AtLeast(t, k), AtLeast(m, k) - {x});
        assert x in AtLeast(m, k);
      }
    }
  }

  /** At most a rank of 0 goes. */
  ghost predicate Keeps(m: Ranks, t: Ranks) {
    && (forall y :: y in t ==> y in m && t[y] == m[y])
    && (forall y :: y in m && 0 < m[y] ==> y in t)
  }

  lemma {:induction false} WeightStays(m: Ranks, t: Ranks, k: nat)
    requires Keeps(m, t)
    ensures Weight(t, k) == Weight(m, k)
  {
    if 0 < k {
      WeightStays(m, t, k - 1);
      assert AtLeast(t, k) == AtLeast(m, k);
    }
  }

  /** A bound on all ranks. */
  lemma {:induction false} Bound(ranks: Ranks, xs: set<Xid>) returns (k: nat)
    requires xs <= ranks.Keys
    ensures forall x :: x in xs ==> ranks[x] <= k
    decreases |xs|
  {
    k := 0;
    if xs != {} {
      assert (forall x :: x !in xs) ==> xs == {};
      var x :| x in xs;
      k := Bound(ranks, xs - {x});
      if k < ranks[x] {
        k := ranks[x];
      }
    }
  }

  /** An id that has not been used. */
  lemma {:induction false} FreshId(used: set<SegmentId>) returns (id: SegmentId)
    ensures id !in used && forall i :: i in used ==> i < id
    decreases |used|
  {
    id := 0;
    if used != {} {
      assert (forall i :: i !in used) ==> used == {};
      var i :| i in used;
      id := FreshId(used - {i});
      if id <= i {
        id := i + 1;
      }
      forall j | j in used
        ensures j < id
      {
        assert j == i || j in used - {i};
      }
    }
  }

  // ---------- Somebody can always go on ----------

  /** What a merger that holds the MergeLock, or does not need it, does next. */
  ghost function OwnStep(policy: Policy, s: State, x: Xid, newId: SegmentId): MergerStep
    requires x in s.mergers
  {
    match s.mergers[x]
    case Waiting => TakeLock
    case Locked => Open
    case Opened(_) => if policy(s, x) == [] then GiveUp else Plan(policy(s, x))
    case Planned(_, _) => ReleaseLock
    case Merging(_, todo) => if todo == [] then Stop else Commit(newId)
    case Stopped => RetakeLock
    case Relocked => RemoveEntry
    case Leaving => Finish
  }

  lemma OwnStepEnabled(policy: Policy, s: State, x: Xid, newId: SegmentId)
    requires Chooses(policy) && x in s.mergers && newId !in s.used
    requires MergerHoldsMergeLock(s.mergers[x]) || s.mergeLock == Free
    ensures MergerEnabled(s, x, OwnStep(policy, s, x, newId))
    ensures Diligent(policy, s, x, OwnStep(policy, s, x, newId))
  {
  }

  /** One merger gets nearer to its plan, or nearer to its end. */
  ghost predicate Advances(m: map<Xid, MergerPhase>, t: map<Xid, MergerPhase>, x: Xid) {
    Lowers(Early(m), Early(t), x) || (Keeps(Early(m), Early(t)) && Lowers(Late(m), Late(t), x))
  }

  /** The merger is in a later phase, or has left. */
  ghost predicate Later(m: map<Xid, MergerPhase>, t: map<Xid, MergerPhase>, x: Xid) {
    && x in m
    && (forall y :: y in t ==> y in m && (y != x ==> t[y] == m[y]))
    && (forall y :: y in m && y != x ==> y in t)
    && if 0 < EarlyRank(m[x]) then x in t && EarlyRank(t[x]) < EarlyRank(m[x])
       else x in t ==> EarlyRank(t[x]) == 0 && LateRank(t[x]) < LateRank(m[x])
  }

  lemma LaterAdvances(m: map<Xid, MergerPhase>, t: map<Xid, MergerPhase>, x: Xid)
    requires Later(m, t, x)
    ensures Advances(m, t, x)
  {
    assert EarlyRank(m[x]) == 0 ==> 0 < LateRank(m[x]);
  }

  /** The phase a merger that does not leave gets to. */
  ghost function NextPhase(policy: Policy, s: State, x: Xid): MergerPhase
    requires x in s.mergers
  {
    match s.mergers[x]
    case Waiting => Locked
    case Locked => Opened(s.live)
    case Opened(view) => if policy(s, x) == [] then Leaving else Planned(view, policy(s, x))
    case Planned(view, todo) => Merging(view, todo)
    case Merging(view, todo) => if todo == [] then Stopped else Merging(view, todo[1..])
    case Stopped => Relocked
    case Relocked => Leaving
    case Leaving => Leaving
  }

  lemma PlanningMoves(policy: Policy, s: State, x: Xid, newId: SegmentId)
    requires x in s.mergers && MergerEnabled(s, x, OwnStep(policy, s, x, newId))
    requires 0 < EarlyRank(s.mergers[x])
    ensures var t := MergerEffect(s, x, OwnStep(policy, s, x, newId));
            && t.ending == s.ending
            && t.mergers == if s.mergers[x].Leaving? then s.mergers - {x} else s.mergers[x := NextPhase(policy, s, x)]
  {
  }

  lemma FinishingMoves(policy: Policy, s: State, x: Xid, newId: SegmentId)
    requires x in s.mergers && MergerEnabled(s, x, OwnStep(policy, s, x, newId))
    requires EarlyRank(s.mergers[x]) == 0
    ensures var t := MergerEffect(s, x, OwnStep(policy, s, x, newId));
            && t.ending == s.ending
            && t.mergers == if s.mergers[x].Leaving? then s.mergers - {x} else s.mergers[x := NextPhase(policy, s, x)]
  {
  }

  lemma OwnStepIsLater(policy: Policy, s: State, x: Xid, newId: SegmentId)
    requires x in s.mergers && MergerEnabled(s, x, OwnStep(policy, s, x, newId))
    ensures var t := MergerEffect(s, x, OwnStep(policy, s, x, newId));
            Later(s.mergers, t.mergers, x) && t.ending == s.ending
  {
    if 0 < EarlyRank(s.mergers[x]) {
      PlanningMoves(policy, s, x, newId);
    } else {
      FinishingMoves(policy, s, x, newId);
    }
  }

  lemma MergerGoesOn(policy: Policy, s: State, x: Xid, newId: SegmentId)
    requires Safe(s) && x in s.mergers && (s.mergeLock == Free || s.mergeLock == ByMerger(x))
    requires Chooses(policy) && newId !in s.used
    ensures var step := Merge(x, OwnStep(policy, s, x, newId));
            && Helpful(policy, s, step) && Enabled(s, step)
            && Advances(s.mergers, Apply(s, step).mergers, x) && Apply(s, step).ending == s.ending
  {
    OwnStepEnabled(policy, s, x, newId);
    OwnStepIsLater(policy, s, x, newId);
    LaterAdvances(s.mergers, MergerEffect(s, x, OwnStep(policy, s, x, newId)).mergers, x);
  }

  /** The vacuum's phases, segments and scans still to go are fewer. */
  ghost predicate NearerEnd(s: State, t: State) {
    && t.mergers == s.mergers && t.ending == s.ending
    && (|| VacuumRank(t.vacuum.phase) < VacuumRank(s.vacuum.phase)
        || (&& t.vacuum.phase == s.vacuum.phase
            && (|| |t.vacuum.todo| < |s.vacuum.todo|
                || (t.vacuum.todo == s.vacuum.todo && |t.scans| < |s.scans|))))
  }

  /** A step that can be taken and brings the vacuum nearer to its end: one of its own or the end of a
      scan. */
  ghost predicate Pushes(s: State, step: Step) {
    && ((step.Vacuuming? && !step.vacuum.Exclude?) || (step.Scanning? && step.step.Close?))
    && Enabled(s, step) && NearerEnd(s, Apply(s, step))
  }

  lemma PhaseEnds(s: State, v: VacuumStep)
    requires VacuumEnabled(s, v) && !v.Exclude? && !v.Mark?
    ensures VacuumEffect(s, v).mergers == s.mergers && VacuumEffect(s, v).ending == s.ending
    ensures VacuumRank(VacuumEffect(s, v).vacuum.phase) < VacuumRank(s.vacuum.phase)
  {
  }

  /** A step of the vacuum other than marking ends a phase. */
  lemma VacuumMoves(s: State, v: VacuumStep)
    requires VacuumEnabled(s, v) && !v.Exclude? && !v.Mark?
    ensures Pushes(s, Vacuuming(v))
  {
    PhaseEnds(s, v);
  }

  lemma MarkMoves(s: State, id: SegmentId)
    requires VacuumEnabled(s, Mark(id))
    ensures Pushes(s, Vacuuming(Mark(id)))
  {
    var t := VacuumEffect(s, Mark(id));
    assert t.mergers == s.mergers && t.vacuum.phase == s.vacuum.phase && t.vacuum.todo == s.vacuum.todo - {id};
  }

  /** What the vacuum does until it has released the MergeLock. */
  function StartStep(s: State): VacuumStep
    requires 4 <= VacuumRank(s.vacuum.phase)
  {
    match s.vacuum.phase
    case Exclusive => LockMerges
    case ExclusiveLocked => CollectStale
    case Collected => if s.mergeList == map[] then Unfence else Fail
    case Unfenced => OpenReader
    case Reading => WriteList({})
    case Listed => PinSentinel
    case Pinned => UnlockMerges
  }

  lemma VacuumStarts(s: State) returns (step: Step)
    requires Safe(s) && 4 <= VacuumRank(s.vacuum.phase) && (s.mergers == map[] || s.mergeLock == ByVacuum)
    ensures Pushes(s, step)
  {
    assert s.vacuum.phase.Exclusive? ==> s.mergeLock == Free;
    VacuumMoves(s, StartStep(s));
    step := Vacuuming(StartStep(s));
  }

  lemma VacuumMarks(s: State) returns (step: Step)
    requires s.vacuum.phase.Marking?
    ensures Pushes(s, step)
  {
    if id :| id in s.vacuum.todo {
      MarkMoves(s, id);
      step := Vacuuming(Mark(id));
    } else {
      assert s.vacuum.todo == {};
      VacuumMoves(s, Save);
      step := Vacuuming(Save);
    }
  }

  lemma ScanCloses(s: State, c: ScanId)
    requires c in s.scans
    ensures Pushes(s, Scanning(c, Close))
  {
    var rest := s.scans - {c};
    assert s.scans == rest[c := s.scans[c]];
    assert ScanEffect(s, c, Close) == s.(scans := rest);
  }

  /** The barrier may have to wait for scans, which can close. */
  lemma VacuumEnds(s: State) returns (step: Step)
    requires AfterSave(s.vacuum.phase) && s.mergers == map[]
    ensures Pushes(s, step)
  {
    if s.vacuum.phase.Fenced? || s.vacuum.marked == {} {
      VacuumMoves(s, Return);
      step := Vacuuming(Return);
    } else if c :| c in s.scans {
      ScanCloses(s, c);
      step := Scanning(c, Close);
    } else {
      assert s.scans == map[];
      VacuumMoves(s, Barrier);
      step := Vacuuming(Barrier);
    }
  }

  lemma VacuumGoesOn(s: State) returns (step: Step)
    requires Safe(s) && !s.vacuum.phase.Off?
    requires s.mergers == map[] || s.mergeLock == ByVacuum
    ensures Pushes(s, step)
  {
    if 4 <= VacuumRank(s.vacuum.phase) {
      step := VacuumStarts(s);
    } else if s.vacuum.phase.Marking? {
      step := VacuumMarks(s);
    } else {
      step := VacuumEnds(s);
    }
  }

  /** A step of a merger, of the vacuum or the end of a scan after which there is less to go. */
  ghost predicate GoesOn(s: State, step: Step) {
    && Enabled(s, step)
    && Apply(s, step).ending == s.ending
    && ((step.Merge? && Advances(s.mergers, Apply(s, step).mergers, step.xid)) || Pushes(s, step))
  }

  /** Whenever a merger or a vacuum is at work, somebody can go on, without waiting for the end of a
      crashed merger's transaction. */
  lemma SomebodyGoesOn(policy: Policy, s: State) returns (step: Step)
    requires Chooses(policy) && Safe(s) && AtWork(s)
    ensures Helpful(policy, s, step) && GoesOn(s, step)
  {
    if s.mergers == map[] || s.mergeLock == ByVacuum {
      step := VacuumGoesOn(s);
    } else {
      assert (forall y :: y !in s.mergers) ==> s.mergers == map[];
      var x :| x in s.mergers && (s.mergeLock == Free || s.mergeLock == ByMerger(x));
      var newId := FreshId(s.used);
      step := Merge(x, OwnStep(policy, s, x, newId));
      MergerGoesOn(policy, s, x, newId);
    }
  }

  /** In no reachable state do the cleanup lock and the MergeLock block everybody. */
  lemma NoDeadlock(policy: Policy, states: seq<State>, steps: seq<Step>, k: nat)
    requires Chooses(policy) && IsRun(states, steps) && k < |states| && AtWork(states[k])
    ensures exists step :: Helpful(policy, states[k], step) && GoesOn(states[k], step)
  {
    AlwaysSafe(states, steps, k);
    var step := SomebodyGoesOn(policy, states[k]);
  }

  // ---------- All work can be finished ----------

  /** A continuation by helpful steps only. */
  ghost predicate Continues(policy: Policy, states: seq<State>, steps: seq<Step>) {
    && |states| == |steps| + 1
    && forall k :: 0 <= k < |steps| ==>
                     && Helpful(policy, states[k], steps[k]) && Enabled(states[k], steps[k])
                     && states[k + 1] == Apply(states[k], steps[k])
  }

  /** The vacuum is about to fail its assertion. */
  predicate Failing(s: State) {
    s.vacuum.phase.Collected? && s.mergeList != map[]
  }

  /** Once all transactions of crashed mergers have ended, no vacuum gets there. */
  lemma NotFailing(policy: Policy, s: State, step: Step)
    requires Safe(s) && s.ending == {} && Helpful(policy, s, step) && Enabled(s, step) && !Failing(s)
    ensures !Failing(Apply(s, step)) && step != Vacuuming(Fail)
  {
    var t := Apply(s, step);
    if t.vacuum.phase.Collected? {
      match step
      case Merge(x, m) =>
      case Vacuuming(v) =>
      case Scanning(c, p) =>
    }
  }

  lemma MoveLowers(s: State, step: Step, k: nat)
    requires GoesOn(s, step) && step.Merge? && Within(Late(s.mergers), k)
    ensures var t := Apply(s, step);
            || Weight(Early(t.mergers), 3) < Weight(Early(s.mergers), 3)
            || (&& Weight(Early(t.mergers), 3) == Weight(Early(s.mergers), 3)
                && Weight(Late(t.mergers), k) < Weight(Late(s.mergers), k)
                && Within(Late(t.mergers), k))
  {
    var m, t := s.mergers, Apply(s, step).mergers;
    if Lowers(Early(m), Early(t), step.xid) {
      WeightDrops(Early(m), Early(t), step.xid, 3);
    } else {
      WeightStays(Early(m), Early(t), 3);
      WeightDrops(Late(m), Late(t), step.xid, k);
    }
  }

  lemma Prepend(policy: Policy, s: State, step: Step, states: seq<State>, steps: seq<Step>)
    requires Helpful(policy, s, step) && Enabled(s, step)
    requires Continues(policy, states, steps) && states[0] == Apply(s, step)
    ensures Continues(policy, [s] + states, [step] + steps)
  {
  }

  /** How much there is to go: ending transactions, then mergers that have not planned, then others,
      then the vacuum. */
  ghost predicate Less(s: State, k: nat, t: State, k': nat) {
    || |t.ending| < |s.ending|
    || (&& t.ending == s.ending
        && (|| Weight(Early(t.mergers), 3) < Weight(Early(s.mergers), 3)
            || (&& Weight(Early(t.mergers), 3) == Weight(Early(s.mergers), 3)
                && Weight(Late(t.mergers), k') < Weight(Late(s.mergers), k))
            || (k' == k && NearerEnd(s, t))))
  }

  lemma LessToGo(policy: Policy, s: State, k: nat) returns (step: Step, k': nat)
    requires Chooses(policy) && Safe(s) && Within(Late(s.mergers), k) && s.ending == {} && AtWork(s)
    ensures Helpful(policy, s, step) && Enabled(s, step)
    ensures var t := Apply(s, step);
            Within(Late(t.mergers), k') && Less(s, k, t, k') && t.ending == {}
  {
    step := SomebodyGoesOn(policy, s);
    k' := k;
    if step.Merge? {
      MoveLowers(s, step, k);
      var t := Apply(s, step).mergers;
      if Weight(Early(t), 3) < Weight(Early(s.mergers), 3) {
        k' := Bound(Late(t), Late(t).Keys);
      }
    }
  }

  lemma EndOne(policy: Policy, s: State) returns (step: Step)
    requires s.ending != {}
    ensures Helpful(policy, s, step) && Enabled(s, step) && step != Vacuuming(Fail)
    ensures var t := Apply(s, step);
            t.mergers == s.mergers && |t.ending| < |s.ending| && Failing(t) == Failing(s)
  {
    assert (forall x :: x !in s.ending) ==> s.ending == {};
    var x :| x in s.ending;
    step := Merge(x, EndTransaction);
  }

  /** From every such state all work under way can be finished, and whatever the policy chooses is
      merged. No vacuum fails, unless one is about to. */
  lemma {:induction false} WorkCanFinish(policy: Policy, s: State, k: nat) returns (states: seq<State>, steps: seq<Step>)
    requires Chooses(policy) && Safe(s) && Within(Late(s.mergers), k)
    ensures Continues(policy, states, steps) && states[0] == s
    ensures !AtWork(states[|steps|]) && states[|steps|].ending == {}
    ensures !Failing(s) ==> Vacuuming(Fail) !in steps
    decreases |s.ending|, Weight(Early(s.mergers), 3), Weight(Late(s.mergers), k), VacuumRank(s.vacuum.phase),
              |s.vacuum.todo|, |s.scans|
  {
    if s.ending == {} && !AtWork(s) {
      states, steps := [s], [];
      return;
    }
    var step: Step, k' := Vacuuming(Fail), k;
    if s.ending != {} {
      step := EndOne(policy, s);
    } else {
      step, k' := LessToGo(policy, s, k);
      if !Failing(s) {
        NotFailing(policy, s, step);
      }
    }
    StepKeepsSafe(s, step);
    var states', steps' := WorkCanFinish(policy, Apply(s, step), k');
    Prepend(policy, s, step, states', steps');
    states, steps := [s] + states', [step] + steps';
  }

  /** In particular from every state of every run. */
  lemma EveryRunCanFinish(policy: Policy, states: seq<State>, steps: seq<Step>, k: nat)
    returns (states': seq<State>, steps': seq<Step>)
    requires Chooses(policy) && IsRun(states, steps) && k < |states|
    ensures Continues(policy, states', steps') && states'[0] == states[k]
    ensures !AtWork(states'[|steps'|]) && states'[|steps'|].ending == {}
    ensures !Failing(states[k]) ==> Vacuuming(Fail) !in steps'
  {
    AlwaysSafe(states, steps, k);
    var ranks := Late(states[k].mergers);
    var bound := Bound(ranks, ranks.Keys);
    states', steps' := WorkCanFinish(policy, states[k], bound);
  }
}
