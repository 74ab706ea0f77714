/** The leader's end of the workers' message queues: an iterator that polls the queues for a batch,
    hands the batch out, and polls again until every worker has detached.

    Workers send and detach at any time, also while the leader is in the middle of a poll. */
module MessageQueues {
  type Message = seq<bv8>

  /** A worker's queue. The receiver learns that the sender has detached only once it is empty. */
  datatype Queue = Queue(messages: seq<Message>, detached: bool) {
    predicate Gone() {
      messages == [] && detached
    }
  }

  datatype Tagged = Tagged(worker: nat, message: Message)

  type Batch = seq<Tagged>

  /** Where the leader is. `Popping`: handing out a batch. `Polling`: in `try_recv`, about to look at
      queue `i`, having found `detached` queues detached. `Draining`: likewise in the blocking `recv`.
      `Last`: handing out what `recv` returned. */
  datatype Leader =
    | Popping(batch: Batch)
    | Polling(i: nat, detached: nat, batch: Batch)
    | Draining(i: nat, detached: nat, batch: Batch)
    | Last(batch: Batch)
    | Done
    | Panic

  /** The queues and the leader; `sent` and `delivered` are what each worker has sent and what of it
      the iterator has handed out, in order. */
  datatype System = System(queues: seq<Queue>, leader: Leader, sent: seq<seq<Message>>, delivered: seq<seq<Message>>)

  datatype Step = Send(worker: nat, message: Message) | Detach(worker: nat) | Lead

  function Start(n: nat): System {
    System(seq(n, _ => Queue([], false)), Popping([]), seq(n, _ => []), seq(n, _ => []))
  }

  ghost predicate Shaped(s: System) {
    |s.queues| == |s.sent| == |s.delivered|
  }

  predicate LeaderCanMove(s: System) {
    match s.leader
    case Popping(batch) => batch == [] || Final(batch).worker < |s.delivered|
    case Polling(_, _, _) => true
    case Draining(i, _, _) => i < |s.queues| ==> s.queues[i].messages != [] || s.queues[i].detached
    case Last(batch) => batch == [] || Final(batch).worker < |s.delivered|
    case Done => false
    case Panic => false
  }

  predicate Enabled(s: System, step: Step) {
    match step
    case Send(w, _) => w < |s.queues| == |s.sent| && !s.queues[w].detached
    case Detach(w) => w < |s.queues| && !s.queues[w].detached
    case Lead => LeaderCanMove(s)
  }

  function Final(batch: Batch): Tagged
    requires batch != []
  {
    batch[|batch| - 1]
  }

  /** The last message of the batch is handed out. */
  function Deliver(s: System, batch: Batch, leader: Leader): System
    requires batch != [] && Final(batch).worker < |s.delivered|
  {
    var w := Final(batch).worker;
    s.(leader := leader, delivered := s.delivered[w := s.delivered[w] + [Final(batch).message]])
  }

  /** The first message of queue `i` is taken into the batch. */
  function Receive(s: System, i: nat, leader: Leader): System
    requires i < |s.queues| && s.queues[i].messages != []
  {
    s.(queues := s.queues[i := s.queues[i].(messages := s.queues[i].messages[1..])], leader := leader)
  }

  function Poll(s: System, i: nat, detached: nat, batch: Batch): System {
    if i < |s.queues| then
      if s.queues[i].messages != [] then
        Receive(s, i, Polling(i + 1, detached, batch + [Tagged(i, s.queues[i].messages[0])]))
      else if s.queues[i].detached then s.(leader := Polling(i + 1, detached + 1, batch))
      else s.(leader := Polling(i + 1, detached, batch))
    else if detached == |s.queues| then
      if batch == [] then s.(leader := Draining(0, 0, [])) else s.(leader := Panic)
    else s.(leader := Popping(batch))
  }

  function Drain(s: System, i: nat, detached: nat, batch: Batch): System
    requires i < |s.queues| ==> s.queues[i].messages != [] || s.queues[i].detached
  {
    if i < |s.queues| then
      if s.queues[i].messages != [] then
        Receive(s, i, Draining(i + 1, detached, batch + [Tagged(i, s.queues[i].messages[0])]))
      else s.(leader := Draining(i + 1, detached + 1, batch))
    else if detached == |s.queues| then s.(leader := Last(batch))
    else s.(leader := Draining(0, 0, batch))
  }

  function LeaderMove(s: System): System
    requires LeaderCanMove(s)
  {
    match s.leader
    case Popping(batch) =>
      if batch == [] then s.(leader := Polling(0, 0, [])) else Deliver(s, batch, Popping(batch[..|batch| - 1]))
    case Polling(i, detached, batch) => Poll(s, i, detached, batch)
    case Draining(i, detached, batch) => Drain(s, i, detached, batch)
    case Last(batch) =>
      if batch == [] then s.(leader := Done) else Deliver(s, batch, Last(batch[..|batch| - 1]))
  }

  function Apply(s: System, step: Step): System
    requires Enabled(s, step)
  {
    match step
    case Send(w, m) =>
      s.(queues := s.queues[w := s.queues[w].(messages := s.queues[w].messages + [m])],
         sent := s.sent[w := s.sent[w] + [m]])
    case Detach(w) => s.(queues := s.queues[w := s.queues[w].(detached := true)])
    case Lead => LeaderMove(s)
  }

  ghost predicate IsRun(states: seq<System>, steps: seq<Step>, n: nat) {
    && |states| == |steps| + 1
    && states[0] == Start(n)
    && forall k :: 0 <= k < |steps| ==> Enabled(states[k], steps[k]) && states[k + 1] == Apply(states[k], steps[k])
  }

  // ---------- What every step keeps ----------

  /** The batch holds at most one message of each of the first `n` workers, in their order. */
  ghost predicate OneEach(batch: Batch, n: nat) {
    && (forall k :: 0 <= k < |batch| ==> batch[k].worker < n)
    && (forall k, l :: 0 <= k < l < |batch| ==> batch[k].worker < batch[l].worker)
  }

  function BatchOf(leader: Leader): Batch {
    match leader
    case Popping(batch) => batch
    case Polling(_, _, batch) => batch
    case Draining(_, _, batch) => batch
    case Last(batch) => batch
    case _ => []
  }

  /** The message of worker `w` in the batch, if it is there. */
  function Held(batch: Batch, w: nat): seq<Message> {
    if batch == [] then []
    else Held(batch[..|batch| - 1], w) + if Final(batch).worker == w then [Final(batch).message] else []
  }

  ghost predicate AllGone(queues: seq<Queue>, n: nat)
    requires n <= |queues|
  {
    forall j :: 0 <= j < n ==> queues[j].Gone()
  }

  ghost predicate LeaderOk(leader: Leader, queues: seq<Queue>) {
    match leader
    case Popping(batch) => OneEach(batch, |queues|)
    case Polling(i, detached, batch) =>
      && detached <= i <= |queues|
      && OneEach(batch, i)
      && (detached == i ==> batch == [] && AllGone(queues, i))
    case Draining(i, detached, batch) =>
      detached == i <= |queues| && batch == [] && AllGone(queues, |queues|)
    case Last(batch) => batch == [] && AllGone(queues, |queues|)
    case Done => AllGone(queues, |queues|)
    case Panic => false
  }

  /** What a worker has sent is what was handed out, then what is in the batch, then what is queued. */
  ghost predicate Conserved(s: System, w: nat)
    requires Shaped(s) && w < |s.queues|
  {
    s.sent[w] == s.delivered[w] + Held(BatchOf(s.leader), w) + s.queues[w].messages
  }

  ghost predicate Inv(s: System) {
    Shaped(s) && LeaderOk(s.leader, s.queues) && forall w :: 0 <= w < |s.queues| ==> Conserved(s, w)
  }

  lemma {:induction false} HeldOfNobody(batch: Batch, w: nat)
    requires forall k :: 0 <= k < |batch| ==> batch[k].worker != w
    ensures Held(batch, w) == []
  {
    if batch != [] {
      HeldOfNobody(batch[..|batch| - 1], w);
    }
  }

  lemma HeldAppend(batch: Batch, t: Tagged, w: nat)
    ensures Held(batch + [t], w) == Held(batch, w) + if t.worker == w then [t.message] else []
  {
    assert (batch + [t])[..|batch|] == batch;
  }

  lemma StartIsOk(n: nat)
    ensures Inv(Start(n))
  {
  }

  lemma SendKeepsInv(s: System, w: nat, m: Message)
    requires Inv(s) && Enabled(s, Send(w, m))
    ensures Inv(Apply(s, Send(w, m)))
  {
    var s' := Apply(s, Send(w, m));
    forall v | 0 <= v < |s.queues|
      ensures Conserved(s', v)
    {
      assert Conserved(s, v);
    }
    assert !s.queues[w].Gone();
    if s.leader.Polling? && s.leader.detached == s.leader.i {
      forall j | 0 <= j < s.leader.i
        ensures s'.queues[j].Gone()
      {
        assert s.queues[j].Gone();
      }
    }
  }

  lemma DetachKeepsInv(s: System, w: nat)
    requires Inv(s) && Enabled(s, Detach(w))
    ensures Inv(Apply(s, Detach(w)))
  {
    var s' := Apply(s, Detach(w));
    forall v | 0 <= v < |s.queues|
      ensures Conserved(s', v)
    {
      assert Conserved(s, v);
    }
    assert !s.queues[w].Gone();
    if s.leader.Polling? && s.leader.detached == s.leader.i {
      forall j | 0 <= j < s.leader.i
        ensures s'.queues[j].Gone()
      {
        assert s.queues[j].Gone();
      }
    }
  }

  lemma DeliverKeepsInv(s: System)
    requires Inv(s) && s.leader.Popping? && s.leader.batch != [] && LeaderCanMove(s)
    ensures Inv(LeaderMove(s))
  {
    var s', batch := LeaderMove(s), s.leader.batch;
    var front, t := batch[..|batch| - 1], Final(batch);
    HeldOfNobody(front, t.worker);
    forall v | 0 <= v < |s.queues|
      ensures Conserved(s', v)
    {
      assert Conserved(s, v);
    }
  }

  lemma ReceiveKeepsInv(s: System)
    requires Inv(s) && s.leader.Polling? && s.leader.i < |s.queues| && s.queues[s.leader.i].messages != []
    ensures Inv(LeaderMove(s))
  {
    var s', i, batch := LeaderMove(s), s.leader.i, s.leader.batch;
    var t := Tagged(i, s.queues[i].messages[0]);
    HeldOfNobody(batch, i);
    forall v | 0 <= v < |s.queues|
      ensures Conserved(s', v)
    {
      assert Conserved(s, v);
      HeldAppend(batch, t, v);
      assert s.queues[i].messages == [t.message] + s.queues[i].messages[1..];
    }
  }

  lemma WaitKeepsInv(s: System)
    requires Inv(s) && LeaderCanMove(s)
    requires s.leader.Popping? ==> s.leader.batch == []
    requires s.leader.Polling? && s.leader.i < |s.queues| ==> s.queues[s.leader.i].messages == []
    ensures Inv(LeaderMove(s))
  {
    var s' := LeaderMove(s);
    forall v | 0 <= v < |s.queues|
      ensures Conserved(s', v)
    {
      assert Conserved(s, v);
    }
  }

  lemma StepKeepsInv(s: System, step: Step)
    requires Inv(s) && Enabled(s, step)
    ensures Inv(Apply(s, step))
  {
    match step
    case Send(w, m) => SendKeepsInv(s, w, m);
    case Detach(w) => DetachKeepsInv(s, w);
    case Lead =>
      if s.leader.Popping? && s.leader.batch != [] {
        DeliverKeepsInv(s);
      } else if s.leader.Polling? && s.leader.i < |s.queues| && s.queues[s.leader.i].messages != [] {
        ReceiveKeepsInv(s);
      } else {
        WaitKeepsInv(s);
      }
  }

  lemma {:induction false} AlwaysInv(states: seq<System>, steps: seq<Step>, n: nat, k: nat)
    requires IsRun(states, steps, n) && k < |states|
    ensures Inv(states[k]) && |states[k].queues| == n
  {
    if k == 0 {
      StartIsOk(n);
    } else {
      AlwaysInv(states, steps, n, k - 1);
      StepKeepsInv(states[k - 1], steps[k - 1]);
    }
  }

  // ---------- The iterator's promises ----------

  /** Whatever the workers do and whenever: what is handed out of one worker's messages is a prefix of
      what it sent, the check for leftover messages never fails, and when the iterator ends every
      message of every worker has been handed out once, in order. */
  lemma EveryMessageArrivesOnce(states: seq<System>, steps: seq<Step>, n: nat, k: nat, w: nat)
    requires IsRun(states, steps, n) && k < |states| && w < n
    ensures |states[k].sent| == |states[k].delivered| == |states[k].queues| == n
    ensures states[k].delivered[w] <= states[k].sent[w]
    ensures states[k].leader != Panic
    ensures states[k].leader == Done ==>
              states[k].queues[w].detached && states[k].delivered[w] == states[k].sent[w]
  {
    AlwaysInv(states, steps, n, k);
    assert Conserved(states[k], w);
  }

  function Queued(queues: seq<Queue>): nat {
    if queues == [] then 0 else Queued(queues[..|queues| - 1]) + |queues[|queues| - 1].messages|
  }

  lemma {:induction false} ReceiveShrinks(queues: seq<Queue>, i: nat)
    requires i < |queues| && queues[i].messages != []
    ensures Queued(queues[i := queues[i].(messages := queues[i].messages[1..])]) == Queued(queues) - 1
  {
    var last := |queues| - 1;
    var queues' := queues[i := queues[i].(messages := queues[i].messages[1..])];
    if i == last {
      assert queues'[..last] == queues[..last];
    } else {
      assert queues'[..last] == queues[..last][i := queues[..last][i].(messages := queues[..last][i].messages[1..])];
      ReceiveShrinks(queues[..last], i);
    }
  }

  /** Messages the leader has not yet begun to hand out. */
  function Ahead(s: System): nat {
    Queued(s.queues) + if s.leader.Polling? then |s.leader.batch| else 0
  }

  /** A poll that has passed a queue whose worker was neither sending nor gone. */
  function Wasted(s: System): nat {
    if s.leader.Polling? && s.leader.detached + |s.leader.batch| < s.leader.i then 1 else 0
  }

  function Phase(s: System): nat {
    match s.leader
    case Popping(_) => 2
    case Polling(_, _, _) => 1
    case _ => 0
  }

  function Left(s: System): int {
    match s.leader
    case Popping(batch) => |batch|
    case Polling(i, _, _) => |s.queues| - i
    case Draining(i, _, _) => |s.queues| - i + 2
    case Last(batch) => 1
    case _ => 0
  }

  ghost predicate AllDetached(queues: seq<Queue>) {
    forall j :: 0 <= j < |queues| ==> queues[j].detached
  }

  /** What the leader does on its own from `s` on. */
  ghost predicate LeadsTo(run: seq<System>) {
    && run != []
    && forall k :: 0 <= k < |run| - 1 ==> LeaderCanMove(run[k]) && run[k + 1] == LeaderMove(run[k])
  }

  /** Once all workers have detached, the iterator comes to its end. */
  lemma {:induction false} IteratorEnds(s: System) returns (run: seq<System>)
    requires Inv(s) && AllDetached(s.queues)
    ensures LeadsTo(run) && run[0] == s && run[|run| - 1].leader == Done
    decreases Ahead(s), Wasted(s), Phase(s), Left(s)
  {
    if s.leader == Done {
      run := [s];
    } else {
      var s' := LeaderMove(s);
      StepKeepsInv(s, Lead);
      if s.leader.Polling? && s.leader.i < |s.queues| && s.queues[s.leader.i].messages != [] {
        ReceiveShrinks(s.queues, s.leader.i);
      }
      var rest := IteratorEnds(s');
      run := [s] + rest;
    }
  }

  /** A poll never waits: whatever the workers do, it is over after looking at each queue once. */
  lemma {:induction false} PollEnds(s: System) returns (run: seq<System>)
    requires Inv(s) && s.leader.Polling?
    ensures LeadsTo(run) && run[0] == s && !run[|run| - 1].leader.Polling?
    ensures |run| == |s.queues| - s.leader.i + 2
    decreases |s.queues| - s.leader.i
  {
    var s' := LeaderMove(s);
    StepKeepsInv(s, Lead);
    if s'.leader.Polling? {
      var rest := PollEnds(s');
      run := [s] + rest;
    } else {
      run := [s, s'];
    }
  }

  // ---------- Sending and detaching ----------

  /** At the start every worker can send anything, and nothing has been sent. */
  lemma StartIsOpen(n: nat, w: nat, m: Message)
    requires w < n
    ensures Enabled(Start(n), Send(w, m)) && Enabled(Start(n), Detach(w)) && Start(n).sent[w] == []
  {
  }

  /** A worker that has detached sends nothing more. */
  lemma {:induction false} DetachIsFinal(states: seq<System>, steps: seq<Step>, n: nat, j: nat, k: nat, w: nat)
    requires IsRun(states, steps, n) && j < k < |states| && w < n && steps[j] == Detach(w)
    ensures |states[k].queues| == |states[k].sent| == |states[j].sent| == n
    ensures states[k].queues[w].detached && states[k].sent[w] == states[j].sent[w]
    decreases k
  {
    AlwaysShaped(states, steps, n, j);
    if j < k - 1 {
      DetachIsFinal(states, steps, n, j, k - 1, w);
    }
    AlwaysShaped(states, steps, n, k - 1);
    KeepsDetached(states[k - 1], steps[k - 1], w);
  }

  lemma AlwaysShaped(states: seq<System>, steps: seq<Step>, n: nat, k: nat)
    requires IsRun(states, steps, n) && k < |states|
    ensures |states[k].queues| == |states[k].sent| == |states[k].delivered| == n
  {
    AlwaysInv(states, steps, n, k);
  }

  lemma KeepsDetached(s: System, step: Step, w: nat)
    requires Shaped(s) && w < |s.queues| && Enabled(s, step)
    ensures |Apply(s, step).queues| == |Apply(s, step).sent| == |s.queues|
    ensures s.queues[w].detached || step == Detach(w) ==>
              Apply(s, step).queues[w].detached && Apply(s, step).sent[w] == s.sent[w]
  {
  }

  // ---------- The blocking receive on its own ----------

  /** The leader asks for everything at once: it goes round all queues until it finds all detached. */
  ghost predicate IsRecv(states: seq<System>, steps: seq<Step>, n: nat) {
    && |states| == |steps| + 1
    && states[0] == Start(n).(leader := Draining(0, 0, []))
    && forall k :: 0 <= k < |steps| ==>
                     && states[k].leader.Draining? && Enabled(states[k], steps[k])
                     && states[k + 1] == Apply(states[k], steps[k])
  }

  /** What a worker has sent is what was received, then what is queued. */
  ghost predicate Received(s: System, w: nat)
    requires Shaped(s) && w < |s.queues|
  {
    s.sent[w] == Held(BatchOf(s.leader), w) + s.queues[w].messages
  }

  /** Of the queues passed in this round, those not found detached have given one message each, in
      order. */
  ghost predicate RoundOk(batch: Batch, i: nat, detached: nat)
    requires detached <= i
  {
    i - detached <= |batch| && OneEach(batch[|batch| - (i - detached)..], i)
  }

  lemma RoundGoesOn(batch: Batch, i: nat, detached: nat, m: Message)
    requires detached <= i && RoundOk(batch, i, detached)
    ensures RoundOk(batch + [Tagged(i, m)], i + 1, detached) && RoundOk(batch, i + 1, detached + 1)
    ensures RoundOk(batch, 0, 0)
  {
    var n := i - detached;
    var round, all := batch[|batch| - n..], batch + [Tagged(i, m)];
    assert all[|all| - (n + 1)..] == round + [Tagged(i, m)];
  }

  ghost predicate RecvLeaderOk(leader: Leader, queues: seq<Queue>) {
    match leader
    case Draining(i, detached, batch) =>
      && detached <= i <= |queues| && (detached == i ==> AllGone(queues, i))
      && RoundOk(batch, i, detached)
    case Last(_) => AllGone(queues, |queues|)
    case _ => false
  }

  ghost predicate RecvInv(s: System) {
    Shaped(s) && RecvLeaderOk(s.leader, s.queues) && forall w :: 0 <= w < |s.queues| ==> Received(s, w)
  }

  lemma WorkersKeepMessages(s: System, step: Step, v: nat)
    requires Shaped(s) && s.leader.Draining? && Enabled(s, step) && !step.Lead? && v < |s.queues| && Received(s, v)
    ensures Shaped(Apply(s, step)) && |Apply(s, step).queues| == |s.queues| && Received(Apply(s, step), v)
  {
    if step.Send? && step.worker == v {
      var held, queued := Held(s.leader.batch, v), s.queues[v].messages;
      assert (held + queued) + [step.message] == held + (queued + [step.message]);
    }
  }

  lemma LeaderKeepsMessages(s: System, v: nat)
    requires Shaped(s) && s.leader.Draining? && LeaderCanMove(s) && v < |s.queues| && Received(s, v)
    ensures Shaped(LeaderMove(s)) && |LeaderMove(s).queues| == |s.queues| && Received(LeaderMove(s), v)
  {
    var i, batch := s.leader.i, s.leader.batch;
    if i < |s.queues| && s.queues[i].messages != [] {
      var first, rest := s.queues[i].messages[0], s.queues[i].messages[1..];
      assert s.queues[i].messages == [first] + rest;
      HeldAppend(batch, Tagged(i, first), v);
      assert Held(batch, v) + ([first] + rest) == (Held(batch, v) + [first]) + rest;
    }
  }

  lemma WorkersKeepLeaderOk(leader: Leader, queues: seq<Queue>, w: nat, q: Queue)
    requires RecvLeaderOk(leader, queues) && leader.Draining? && w < |queues| && !queues[w].Gone()
    ensures RecvLeaderOk(leader, queues[w := q])
  {
    if leader.detached == leader.i {
      assert forall j :: 0 <= j < leader.i ==> queues[j].Gone();
    }
  }

  lemma RecvKeepsLeader(s: System)
    requires RecvLeaderOk(s.leader, s.queues) && s.leader.Draining? && LeaderCanMove(s)
    ensures RecvLeaderOk(LeaderMove(s).leader, LeaderMove(s).queues)
  {
    var i, detached, batch := s.leader.i, s.leader.detached, s.leader.batch;
    if i < |s.queues| && s.queues[i].messages != [] {
      RoundGoesOn(batch, i, detached, s.queues[i].messages[0]);
    } else {
      RoundGoesOn(batch, i, detached, []);
    }
  }

  lemma RecvStepKeeps(s: System, step: Step)
    requires RecvInv(s) && s.leader.Draining? && Enabled(s, step)
    ensures RecvInv(Apply(s, step)) && |Apply(s, step).queues| == |s.queues|
  {
    var s' := Apply(s, step);
    forall v | 0 <= v < |s.queues|
      ensures Shaped(s') && |s'.queues| == |s.queues| && Received(s', v)
    {
      assert Received(s, v);
      if step.Lead? {
        LeaderKeepsMessages(s, v);
      } else {
        WorkersKeepMessages(s, step, v);
      }
    }
    match step
    case Send(w, m) => WorkersKeepLeaderOk(s.leader, s.queues, w, s'.queues[w]);
    case Detach(w) => WorkersKeepLeaderOk(s.leader, s.queues, w, s'.queues[w]);
    case Lead => RecvKeepsLeader(s);
  }

  /** Whatever the workers do and whenever: what the leader has of one worker's messages is a prefix of
      what it sent, and when the leader stops it has all of them, in order. */
  lemma {:induction false} RecvReturnsEverything(states: seq<System>, steps: seq<Step>, n: nat, k: nat, w: nat)
    requires IsRecv(states, steps, n) && k < |states| && w < n
    ensures RecvInv(states[k]) && |states[k].queues| == n
    ensures Held(BatchOf(states[k].leader), w) <= states[k].sent[w]
    ensures states[k].leader.Last? ==>
              states[k].queues[w].detached && Held(states[k].leader.batch, w) == states[k].sent[w]
  {
    if k > 0 {
      RecvReturnsEverything(states, steps, n, k - 1, w);
      assert states[k] == Apply(states[k - 1], steps[k - 1]);
      RecvStepKeeps(states[k - 1], steps[k - 1]);
    }
    assert Received(states[k], w);
  }

  /** Once all workers have detached, the leader stops. */
  lemma {:induction false} RecvEnds(s: System) returns (run: seq<System>)
    requires RecvInv(s) && s.leader.Draining? && AllDetached(s.queues)
    ensures LeadsTo(run) && run[0] == s && run[|run| - 1].leader.Last?
    decreases Queued(s.queues), if s.leader.detached < s.leader.i then 1 else 0, |s.queues| - s.leader.i
  {
    var s' := LeaderMove(s);
    RecvStepKeeps(s, Lead);
    if s'.leader.Last? {
      run := [s, s'];
    } else {
      if s.leader.i < |s.queues| && s.queues[s.leader.i].messages != [] {
        ReceiveShrinks(s.queues, s.leader.i);
      }
      var rest := RecvEnds(s');
      run := [s] + rest;
    }
  }
}
