/** The pipeline and the sequence manager together: a worker answers the pipeline only when its
    submission has been through the manager's locks. */
module SoakSubmission {
  import M = SequenceManager
  import P = SoakPipeline
  import opened Sets

  /** How far the submission a worker has in hand has come, and the reply it will give. */
  datatype Stage = NotAsked | Inside(reply: M.Reply) | Answered(reply: M.Reply)

  datatype Joint = Joint(pipe: P.Pipeline, manager: M.State, stages: seq<Stage>)

  datatype Event = Flow(flow: P.Event) | Submission(step: M.Event)

  /** A submission that fails before it is sent answers with an error. */
  function StageAfter(stage: Stage, e: M.Event): Stage {
    match e
    case AskLock(_, _, _) => Inside(M.RpcError)
    case Submit(_, reply, _) => Inside(reply)
    case Unlock(_) => if stage.Inside? then Answered(stage.reply) else stage
    case _ => stage
  }

  ghost predicate FlowNext(s: Joint, e: P.Event, t: Joint) {
    && P.Next(s.pipe, e, t.pipe) && t.manager == s.manager
    && (e.Answer? ==> e.w < |s.stages| && s.stages[e.w] == Answered(e.reply))
    && t.stages == if e.Receive? && e.w < |s.stages| then s.stages[e.w := NotAsked] else s.stages
  }

  ghost predicate SubmissionNext(s: Joint, e: M.Event, t: Joint) {
    && M.Next(s.manager, e, t.manager) && t.pipe == s.pipe
    && if e.OtherTraffic? then t.stages == s.stages
       else
         && e.w < |s.stages| && e.w < |s.pipe.hands| && s.pipe.hands[e.w].Submitting?
         && (if e.AskLock? then s.stages[e.w] == NotAsked else s.stages[e.w].Inside?)
         && t.stages == s.stages[e.w := StageAfter(s.stages[e.w], e)]
  }

  ghost predicate Next(s: Joint, e: Event, t: Joint) {
    match e
    case Flow(flow) => FlowNext(s, flow, t)
    case Submission(step) => SubmissionNext(s, step, t)
  }

  ghost predicate Init(s: Joint) {
    && P.Init(s.pipe) && M.Init(s.manager)
    && |s.stages| == |s.pipe.hands| == |s.manager.phases|
    && forall w :: 0 <= w < |s.stages| ==> s.stages[w] == NotAsked
  }

  ghost predicate StepAt(run: seq<Joint>, events: seq<Event>, i: nat)
    requires |run| == |events| + 1 && i < |events|
  {
    Next(run[i], events[i], run[i + 1])
  }

  ghost predicate IsRun(run: seq<Joint>, events: seq<Event>) {
    && |run| == |events| + 1
    && Init(run[0])
    && forall i :: 0 <= i < |events| ==> StepAt(run, events, i)
  }

  // ---------------------------------------------------------------------------------------------
  // The invariant
  // ---------------------------------------------------------------------------------------------

  ghost predicate SameSize(s: Joint) {
    |s.stages| == |s.pipe.hands| == |s.manager.phases|
  }

  /** A worker is inside the manager just while its submission is, and then the pipeline waits. */
  ghost predicate StageOk(s: Joint, w: nat)
    requires SameSize(s) && w < |s.stages|
  {
    (s.stages[w].Inside? <==> s.manager.phases[w] != M.Idle) && (s.stages[w].Inside? ==> s.pipe.hands[w].Submitting?)
  }

  ghost predicate Inv(s: Joint) {
    && SameSize(s)
    && P.Shape(s.pipe) && M.Inv(s.manager, a => 0)
    && (forall lock: nat :: M.HolderOk(s.manager, lock))
    && (forall w: nat :: w < |s.stages| ==> StageOk(s, w))
  }

  lemma InitInv(s: Joint)
    requires Init(s)
    ensures Inv(s)
  {
    P.InitConserved(s.pipe);
    M.InitInv(a => 0, s.manager);
  }

  lemma FlowHands(s: P.Pipeline, e: P.Event, t: P.Pipeline)
    requires P.Next(s, e, t)
    ensures |t.hands| == |s.hands|
    ensures forall w: nat :: w < |s.hands| && s.hands[w].Submitting? && !(e.Answer? && e.w == w) ==> t.hands[w].Submitting?
    ensures e.Receive? ==> e.w < |s.hands| && s.hands[e.w] == P.Receiving
  {
    if P.ByHandling(e) {
      P.HandlingMoves(s, e, t);
    } else if P.ByWorker(e) {
      P.WorkerMoves(s, e, t);
    } else {
      P.CoordinatorKeeps(s, e, t);
    }
  }

  lemma FlowInv(s: Joint, e: P.Event, t: Joint)
    requires Inv(s) && FlowNext(s, e, t)
    ensures Inv(t)
  {
    hide P.Next, P.Shape, M.Inv, M.HolderOk;
    P.StepShape(s.pipe, e, t.pipe);
    FlowHands(s.pipe, e, t.pipe);
    forall w: nat | w < |t.stages|
      ensures StageOk(t, w)
    {
      assert StageOk(s, w);
    }
  }

  /** What a step of the manager does to the phases. */
  lemma PhasesStep(s: M.State, e: M.Event, t: M.State)
    requires M.Next(s, e, t)
    ensures |t.phases| == |s.phases|
    ensures e.OtherTraffic? ==> t.phases == s.phases
    ensures !e.OtherTraffic? ==>
              && e.w < |s.phases| && (forall v :: 0 <= v < |s.phases| && v != e.w ==> t.phases[v] == s.phases[v])
              && (s.phases[e.w] == M.Idle <==> e.AskLock?) && (t.phases[e.w] == M.Idle <==> e.Unlock?)
              && (e.AskLock? ==> t.phases[e.w].Waiting?)
              && (!e.AskLock? && !e.Unlock? ==> InsideWeight(t.phases[e.w]) < InsideWeight(s.phases[e.w]))
  {
    hide M.LedgerAnswers, M.Booked, M.ConsumesSequence, M.ReportsDrift, M.Uint32;
  }

  lemma SubmissionInv(s: Joint, e: M.Event, t: Joint)
    requires Inv(s) && SubmissionNext(s, e, t)
    ensures Inv(t)
  {
    hide M.Next, P.Shape, M.HolderOk;
    M.StepInv(a => 0, s.manager, e, t.manager);
    PhasesStep(s.manager, e, t.manager);
    forall lock: nat
      ensures M.HolderOk(t.manager, lock)
    {
      assert M.HolderOk(s.manager, lock);
      M.HolderStep(s.manager, e, t.manager, lock);
    }
    hide M.Inv;
    forall w: nat | w < |t.stages|
      ensures StageOk(t, w)
    {
      assert StageOk(s, w);
    }
  }

  lemma {:induction false} RunInv(run: seq<Joint>, events: seq<Event>, n: nat)
    requires IsRun(run, events) && n <= |events|
    ensures Inv(run[n])
  {
    hide Inv, FlowNext, SubmissionNext;
    if n == 0 {
      InitInv(run[0]);
    } else {
      RunInv(run, events, n - 1);
      assert StepAt(run, events, n - 1);
      match events[n - 1]
      case Flow(flow) => FlowInv(run[n - 1], flow, run[n]);
      case Submission(step) => SubmissionInv(run[n - 1], step, run[n]);
    }
  }

  // ---------------------------------------------------------------------------------------------
  // Deadlock freedom
  // ---------------------------------------------------------------------------------------------

  ghost predicate Enabled(s: Joint, e: Event) {
    exists t :: Next(s, e, t)
  }

  /** The program moves by itself: no cancellation from outside, no other traffic, and a tick only
      while the coordinator paces itself and has not been cancelled. */
  ghost predicate ByItself(s: Joint, e: Event) {
    match e
    case Flow(flow) => flow != P.Cancel && (flow == P.Tick ==> !s.pipe.cancelled && s.pipe.coordinator == P.AwaitingTick)
    case Submission(step) => !step.OtherTraffic?
  }

  lemma FreshLock(used: set<nat>) returns (lock: nat)
    ensures lock !in used
  {
    lock := Above(used);
  }

  lemma {:induction false} Above(used: set<nat>) returns (n: nat)
    ensures forall m :: m in used ==> m < n
  {
    if used == {} {
      n := 0;
    } else {
      var x: nat :| x in used;
      var k := Above(used - {x});
      assert forall m :: m in used ==> m == x || m in used - {x};
      n := if k <= x then x + 1 else k;
    }
  }

  /** The submission in a worker's hand can go on, or that of the worker whose mutex it waits for. */
  lemma SubmissionReady(s: Joint, w: nat, a: M.Account) returns (e: Event)
    requires Inv(s) && w < |s.stages| && s.pipe.hands[w].Submitting? && !s.stages[w].Answered?
    ensures Enabled(s, e) && ByItself(s, e)
  {
    hide P.Shape, M.Inv;
    assert StageOk(s, w);
    var m := s.manager;
    if s.stages[w].NotAsked? {
      var lock := FreshLock(m.locks.Values + m.held.Keys);
      var step := M.AskLock(w, a, lock);
      var m' := if a in m.locks then M.Go(m, w, M.Waiting(a, m.locks[a]))
                else M.Go(m.(locks := m.locks[a := lock]), w, M.Waiting(a, lock));
      assert M.Next(m, step, m');
      e := Submission(step);
      assert Next(s, e, s.(manager := m', stages := s.stages[w := StageAfter(s.stages[w], step)]));
    } else {
      assert m.phases[w].Waiting? ==> M.HolderOk(m, m.phases[w].lock);
      var step := M.SomeoneReady(m, w);
      assert StageOk(s, step.w);
      var m' :| M.Next(m, step, m');
      e := Submission(step);
      assert Next(s, e, s.(manager := m', stages := s.stages[step.w := StageAfter(s.stages[step.w], step)]));
    }
  }

  /** Until the run returns something can move: the pipeline, or a submission inside the manager, even
      if every worker waits for an account that another holds. */
  lemma NeverDeadlocks(run: seq<Joint>, events: seq<Event>, n: nat, a: M.Account)
    requires IsRun(run, events) && n <= |events| && run[n].pipe.coordinator != P.Done
    ensures exists e :: Enabled(run[n], e) && ByItself(run[n], e)
  {
    RunInv(run, events, n);
    var e := Ready(run[n], a);
  }

  lemma Ready(s: Joint, a: M.Account) returns (e: Event)
    requires Inv(s) && s.pipe.coordinator != P.Done
    ensures Enabled(s, e) && ByItself(s, e)
  {
    var flow := P.Ready(s.pipe);
    var p' :| P.Next(s.pipe, flow, p');
    hide P.Shape, M.Inv, M.HolderOk;
    if flow.Answer? {
      var w := flow.w;
      AnswerFrom(s.pipe, flow, p');
      if s.stages[w].Answered? {
        e := Flow(P.Answer(w, s.stages[w].reply));
        var p := s.pipe.Hands(w, P.Sending(P.Outcome(s.pipe.hands[w].tx, s.stages[w].reply)));
        assert Next(s, e, s.(pipe := p));
      } else {
        e := SubmissionReady(s, w, a);
      }
    } else {
      e := Flow(flow);
      hide P.Next;
      assert Next(s, e, s.(pipe := p', stages :=
        if flow.Receive? && flow.w < |s.stages| then s.stages[flow.w := NotAsked] else s.stages));
    }
  }

  lemma AnswerFrom(s: P.Pipeline, e: P.Event, t: P.Pipeline)
    requires P.Next(s, e, t) && e.Answer?
    ensures e.w < |s.hands| && s.hands[e.w].Submitting?
  {
  }

  // ---------------------------------------------------------------------------------------------
  // Draining
  // ---------------------------------------------------------------------------------------------

  /** How far a submission inside the manager is from its end. */
  function InsideWeight(p: M.Phase): nat {
    match p
    case Idle => 0
    case Leaving(_) => 2
    case Replied(_, _, _) => 3
    case Ready(_, _) => 4
    case Fetched(_, _) => 5
    case Locked(_) => 6
    case Waiting(_, _) => 7
  }

  function StageWeight(stage: Stage, p: M.Phase): nat {
    match stage
    case NotAsked => 8
    case Inside(_) => InsideWeight(p)
    case Answered(_) => 1
  }

  ghost function StagesWeight(stages: seq<Stage>, phases: seq<M.Phase>): nat
    requires |stages| == |phases|
  {
    if stages == [] then 0
    else
      var n := |stages| - 1;
      StagesWeight(stages[..n], phases[..n]) + StageWeight(stages[n], phases[n])
  }

  lemma {:induction false} StagesWeightUpdate(stages: seq<Stage>, phases: seq<M.Phase>, w: nat, stage: Stage, p: M.Phase)
    requires |stages| == |phases| && w < |stages|
    ensures StagesWeight(stages[w := stage], phases[w := p]) + StageWeight(stages[w], phases[w])
            == StagesWeight(stages, phases) + StageWeight(stage, p)
  {
    var n := |stages| - 1;
    if w < n {
      StagesWeightUpdate(stages[..n], phases[..n], w, stage, p);
      assert stages[w := stage][..n] == stages[..n][w := stage] && phases[w := p][..n] == phases[..n][w := p];
    } else {
      assert stages[w := stage][..n] == stages[..n] && phases[w := p][..n] == phases[..n];
    }
  }

  lemma {:induction false} StagesWeightBound(stages: seq<Stage>, phases: seq<M.Phase>)
    requires |stages| == |phases|
    ensures StagesWeight(stages, phases) <= 8 * |stages|
  {
    if stages != [] {
      StagesWeightBound(stages[..|stages| - 1], phases[..|stages| - 1]);
    }
  }

  ghost function Work(s: Joint): nat
    requires SameSize(s)
  {
    9 * P.Work(s.pipe) + StagesWeight(s.stages, s.manager.phases)
  }

  ghost predicate Traffic(e: Event) {
    e.Submission? && e.step.OtherTraffic?
  }

  lemma FlowWorks(s: Joint, e: P.Event, t: Joint)
    requires Inv(s) && Inv(t) && s.pipe.cancelled && FlowNext(s, e, t)
    ensures t.pipe.cancelled && Work(t) < Work(s)
  {
    P.StepWorks(s.pipe, e, t.pipe);
    hide P.Next, P.Shape, P.Work, M.Inv, M.HolderOk, StagesWeight;
    var phases := s.manager.phases;
    if e.Receive? && e.w < |s.stages| {
      StagesWeightUpdate(s.stages, phases, e.w, NotAsked, phases[e.w]);
      assert phases[e.w := phases[e.w]] == phases;
    }
  }

  lemma SubmissionWorks(s: Joint, e: M.Event, t: Joint)
    requires Inv(s) && Inv(t) && SubmissionNext(s, e, t)
    ensures if e.OtherTraffic? then Work(t) == Work(s) else Work(t) < Work(s)
  {
    hide M.Next, P.Shape, P.Work, M.Inv, M.HolderOk, StagesWeight;
    PhasesStep(s.manager, e, t.manager);
    if !e.OtherTraffic? {
      assert StageOk(s, e.w);
      var stage, p := t.stages[e.w], t.manager.phases[e.w];
      assert t.manager.phases == s.manager.phases[e.w := p];
      StagesWeightUpdate(s.stages, s.manager.phases, e.w, stage, p);
      assert StageWeight(stage, p) < StageWeight(s.stages[e.w], s.manager.phases[e.w]);
    }
  }

  /** The events from `m` up to `n` that are not other traffic. */
  ghost function Own(events: seq<Event>, m: nat, n: nat): nat
    requires m <= n <= |events|
  {
    if m == n then 0 else Own(events, m, n - 1) + if Traffic(events[n - 1]) then 0 else 1
  }

  lemma StepWorks(s: Joint, e: Event, t: Joint)
    requires Inv(s) && Inv(t) && s.pipe.cancelled && Next(s, e, t)
    ensures t.pipe.cancelled && Work(t) + (if Traffic(e) then 0 else 1) <= Work(s)
  {
    hide Work, FlowNext;
    match e
    case Flow(flow) => FlowWorks(s, flow, t);
    case Submission(step) =>
      SubmissionWorks(s, step, t);
      hide M.Next;
      assert t.pipe == s.pipe;
  }

  lemma {:induction false} WorkBounds(run: seq<Joint>, events: seq<Event>, m: nat, n: nat)
    requires IsRun(run, events) && m <= n <= |events| && run[m].pipe.cancelled
    ensures SameSize(run[m]) && SameSize(run[n]) && run[n].pipe.cancelled
    ensures Own(events, m, n) + Work(run[n]) <= Work(run[m])
  {
    hide Inv, Work, Next, Init;
    RunInv(run, events, m);
    InvSize(run[m]);
    if m < n {
      WorkBounds(run, events, m, n - 1);
      RunInv(run, events, n - 1);
      RunInv(run, events, n);
      InvSize(run[n]);
      assert StepAt(run, events, n - 1);
      StepWorks(run[n - 1], events[n - 1], run[n]);
    }
  }

  lemma InvSize(s: Joint)
    requires Inv(s)
    ensures SameSize(s)
  {
  }

  lemma {:induction false} SameWorkers(run: seq<Joint>, events: seq<Event>, n: nat)
    requires IsRun(run, events) && n <= |events|
    ensures |run[n].pipe.hands| == |run[0].pipe.hands|
  {
    hide P.Next, M.Next;
    if 0 < n {
      SameWorkers(run, events, n - 1);
      assert StepAt(run, events, n - 1);
      if events[n - 1].Flow? {
        FlowHands(run[n - 1].pipe, events[n - 1].flow, run[n].pipe);
      }
    }
  }

  /** After cancellation the whole program takes at most 134 steps a worker and 90 more of its own,
      through pipeline and locks, whatever the schedule and the other traffic; and when it can take
      no further step of its own it has returned. */
  lemma CancelledRunDrains(run: seq<Joint>, events: seq<Event>, m: nat)
    requires IsRun(run, events) && m <= |events| && run[m].pipe.cancelled
    ensures Own(events, m, |events|) <= 134 * |run[0].pipe.hands| + 90
    ensures (forall e :: Enabled(run[|events|], e) ==> !ByItself(run[|events|], e)) ==>
              run[|events|].pipe.coordinator == P.Done
  {
    RunInv(run, events, m);
    SameWorkers(run, events, m);
    WorkBounds(run, events, m, |events|);
    assert Work(run[m]) <= 134 * |run[0].pipe.hands| + 90 by {
      StagesWeightBound(run[m].stages, run[m].manager.phases);
      P.WorkBound(run[m].pipe);
    }
    if run[|events|].pipe.coordinator != P.Done {
      NeverDeadlocks(run, events, |events|, "");
    }
  }
}
