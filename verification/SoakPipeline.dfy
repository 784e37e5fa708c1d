/** The concurrent soak: one coordinator, any number of workers, and two bounded channels.

    Every atomic action of a goroutine is an event.  Submissions are seen from outside: a worker
    takes a transaction, and some reply comes back. */
module SoakPipeline {
  import opened SequenceManager
  import opened Wrappers

  type Tx = nat

  datatype Outcome = Outcome(tx: Tx, reply: Reply) {
    predicate Succeeded() {
      reply == Engine("tesSUCCESS") || reply == Engine("terQUEUED")
    }
  }

  datatype Hand = Receiving | Submitting(tx: Tx) | Sending(outcome: Outcome) | Exited

  datatype Coordinator = Top | AwaitingTick | Picking | Offering(tx: Tx) | Draining | Done

  /** `sent`, `received` and `handled` list what passed through; the rest is the program's state. */
  datatype Pipeline = Pipeline(
    paced: bool,
    cancelled: bool,
    coordinator: Coordinator,
    hands: seq<Hand>,
    submitCh: seq<Tx>,
    submitClosed: bool,
    outcomeCh: seq<Outcome>,
    outcomeClosed: bool,
    picked: nat,
    pickFailures: nat,
    dropped: nat,
    submitted: nat,
    succeeded: nat,
    failed: nat,
    sent: seq<Tx>,
    received: seq<Tx>,
    handled: seq<Outcome>)
  {
    function Capacity(): nat {
      2 * |hands|
    }

    /** The coordinator's bookkeeping for the outcome at the head of the channel. */
    function Handle(): Pipeline
      requires outcomeCh != []
    {
      var o := outcomeCh[0];
      this.(outcomeCh := outcomeCh[1..],
            handled := handled + [o],
            succeeded := succeeded + (if o.Succeeded() then 1 else 0),
            failed := failed + (if o.Succeeded() then 0 else 1))
    }

    function StartDrain(): Pipeline {
      this.(coordinator := Draining, submitClosed := true)
    }

    function Hands(w: nat, h: Hand): Pipeline
      requires w < |hands|
    {
      this.(hands := hands[w := h])
    }
  }

  datatype Event =
    | Cancel
    | Tick
    | TopSeesCancel
    | TopProceeds
    | WaitSeesCancel
    | WaitHandles
    | PickFails
    | Pick
    | Offer
    | OfferHandles
    | OfferSeesCancel
    | DrainHandles
    | DrainEnds
    | Receive(w: nat)
    | Answer(w: nat, reply: Reply)
    | Put(w: nat)
    | Exit(w: nat)
    | CloseOutcomes

  ghost predicate ByWorker(e: Event) {
    e.Receive? || e.Answer? || e.Put? || e.Exit?
  }

  ghost predicate ByHandling(e: Event) {
    e.WaitHandles? || e.OfferHandles? || e.DrainHandles?
  }

  ghost predicate WorkerNext(s: Pipeline, e: Event, t: Pipeline)
    requires ByWorker(e)
  {
    && e.w < |s.hands|
    && match e
       case Receive(w) =>
         && s.hands[w] == Receiving && s.submitCh != []
         && t == s.Hands(w, Submitting(s.submitCh[0]))
                  .(submitCh := s.submitCh[1..], received := s.received + [s.submitCh[0]], submitted := s.submitted + 1)
       case Answer(w, reply) =>
         s.hands[w].Submitting? && t == s.Hands(w, Sending(Outcome(s.hands[w].tx, reply)))
       case Put(w) =>
         && s.hands[w].Sending? && |s.outcomeCh| < s.Capacity()
         && t == s.Hands(w, Receiving).(outcomeCh := s.outcomeCh + [s.hands[w].outcome])
       case Exit(w) =>
         && s.hands[w] == Receiving && s.submitCh == [] && s.submitClosed
         && t == s.Hands(w, Exited)
  }

  ghost predicate HandlingNext(s: Pipeline, e: Event, t: Pipeline)
    requires ByHandling(e)
  {
    && s.outcomeCh != []
    && match e
       case WaitHandles => s.coordinator == AwaitingTick && t == s.Handle().(coordinator := Top)
       case OfferHandles => s.coordinator.Offering? && t == s.Handle()
       case DrainHandles => s.coordinator == Draining && t == s.Handle()
  }

  ghost predicate CoordinatorNext(s: Pipeline, e: Event, t: Pipeline)
    requires !ByWorker(e) && !ByHandling(e)
  {
    match e
    case Cancel => !s.cancelled && t == s.(cancelled := true)
    case Tick => s.coordinator == AwaitingTick && t == s.(coordinator := Picking)
    case TopSeesCancel => s.coordinator == Top && s.cancelled && t == s.StartDrain()
    case TopProceeds =>
      s.coordinator == Top && !s.cancelled && t == s.(coordinator := if s.paced then AwaitingTick else Picking)
    case WaitSeesCancel => s.coordinator == AwaitingTick && s.cancelled && t == s.StartDrain()
    case PickFails =>
      && s.coordinator == Picking
      && t == s.(coordinator := Top, failed := s.failed + 1, pickFailures := s.pickFailures + 1)
    case Pick => s.coordinator == Picking && t == s.(coordinator := Offering(s.picked), picked := s.picked + 1)
    case Offer =>
      && s.coordinator.Offering? && |s.submitCh| < s.Capacity()
      && t == s.(coordinator := Top, submitCh := s.submitCh + [s.coordinator.tx], sent := s.sent + [s.coordinator.tx])
    case OfferSeesCancel =>
      s.coordinator.Offering? && s.cancelled && t == s.StartDrain().(dropped := s.dropped + 1)
    case DrainEnds =>
      s.coordinator == Draining && s.outcomeCh == [] && s.outcomeClosed && t == s.(coordinator := Done)
    case CloseOutcomes =>
      && !s.outcomeClosed && (forall w :: 0 <= w < |s.hands| ==> s.hands[w] == Exited)
      && t == s.(outcomeClosed := true)
  }

  ghost predicate Next(s: Pipeline, e: Event, t: Pipeline) {
    if ByWorker(e) then WorkerNext(s, e, t)
    else if ByHandling(e) then HandlingNext(s, e, t)
    else CoordinatorNext(s, e, t)
  }

  ghost predicate Init(s: Pipeline) {
    && s.coordinator == Top && !s.cancelled && !s.submitClosed && !s.outcomeClosed
    && 1 <= |s.hands| && (forall w :: 0 <= w < |s.hands| ==> s.hands[w] == Receiving)
    && s.submitCh == [] && s.outcomeCh == [] && s.sent == [] && s.received == [] && s.handled == []
    && s.picked == s.pickFailures == s.dropped == s.submitted == s.succeeded == s.failed == 0
  }

  ghost predicate StepAt(run: seq<Pipeline>, events: seq<Event>, i: nat)
    requires |run| == |events| + 1 && i < |events|
  {
    Next(run[i], events[i], run[i + 1])
  }

  ghost predicate IsRun(run: seq<Pipeline>, events: seq<Event>) {
    && |run| == |events| + 1
    && Init(run[0])
    && forall i :: 0 <= i < |events| ==> StepAt(run, events, i)
  }

  // ---------------------------------------------------------------------------------------------
  // Conservation
  // ---------------------------------------------------------------------------------------------

  predicate Carries(h: Hand, tx: Tx) {
    (h.Submitting? && h.tx == tx) || (h.Sending? && h.outcome.tx == tx)
  }

  /** How many workers have `tx` in hand. */
  ghost function InHand(hands: seq<Hand>, tx: Tx): nat {
    if hands == [] then 0
    else InHand(hands[..|hands| - 1], tx) + if Carries(hands[|hands| - 1], tx) then 1 else 0
  }

  /** How many of the outcomes are for `tx`. */
  ghost function Times(outcomes: seq<Outcome>, tx: Tx): nat {
    if outcomes == [] then 0 else (if outcomes[0].tx == tx then 1 else 0) + Times(outcomes[1..], tx)
  }

  lemma {:induction false} InHandUpdate(hands: seq<Hand>, w: nat, h: Hand, tx: Tx)
    requires w < |hands|
    ensures InHand(hands[w := h], tx) + (if Carries(hands[w], tx) then 1 else 0)
            == InHand(hands, tx) + (if Carries(h, tx) then 1 else 0)
  {
    var n := |hands| - 1;
    if w < n {
      InHandUpdate(hands[..n], w, h, tx);
      assert hands[w := h][..n] == hands[..n][w := h];
    } else {
      assert hands[w := h][..n] == hands[..n];
    }
  }

  /** How many workers have a transaction in hand. */
  ghost function Busy(hands: seq<Hand>): nat {
    if hands == [] then 0
    else
      var h := hands[|hands| - 1];
      Busy(hands[..|hands| - 1]) + if h.Submitting? || h.Sending? then 1 else 0
  }

  lemma {:induction false} BusyUpdate(hands: seq<Hand>, w: nat, h: Hand)
    requires w < |hands|
    ensures Busy(hands[w := h]) + (if hands[w].Submitting? || hands[w].Sending? then 1 else 0)
            == Busy(hands) + (if h.Submitting? || h.Sending? then 1 else 0)
  {
    var n := |hands| - 1;
    if w < n {
      BusyUpdate(hands[..n], w, h);
      assert hands[w := h][..n] == hands[..n][w := h];
    } else {
      assert hands[w := h][..n] == hands[..n];
    }
  }

  lemma {:induction false} IdleHands(hands: seq<Hand>)
    requires forall w :: 0 <= w < |hands| ==> hands[w] == Receiving || hands[w] == Exited
    ensures Busy(hands) == 0
  {
    if hands != [] {
      IdleHands(hands[..|hands| - 1]);
    }
  }

  lemma {:induction false} TimesAppend(outcomes: seq<Outcome>, o: Outcome, tx: Tx)
    ensures Times(outcomes + [o], tx) == Times(outcomes, tx) + if o.tx == tx then 1 else 0
  {
    if outcomes != [] {
      TimesAppend(outcomes[1..], o, tx);
      assert (outcomes + [o])[1..] == outcomes[1..] + [o];
    } else {
      assert [o][1..] == [];
    }
  }

  /** A received transaction is in exactly one place: with a worker, on its way back, or handled. */
  ghost predicate Accounted(s: Pipeline, tx: Tx) {
    InHand(s.hands, tx) + Times(s.outcomeCh, tx) + Times(s.handled, tx) == if tx < |s.received| then 1 else 0
  }

  /** The channel hands over in order what was put on it, and all but one of the picks get there. */
  ghost predicate InOrder(s: Pipeline) {
    && s.received + s.submitCh == s.sent
    && s.picked == |s.sent| + s.dropped + (if s.coordinator.Offering? then 1 else 0)
    && (forall i :: 0 <= i < |s.sent| ==> s.sent[i] == i)
    && (s.coordinator.Offering? ==> s.coordinator.tx == |s.sent|)
  }

  /** The counters count exactly what they say. */
  ghost predicate Counted(s: Pipeline) {
    && s.submitted == |s.received| == |s.handled| + |s.outcomeCh| + Busy(s.hands)
    && s.succeeded + s.failed == |s.handled| + s.pickFailures
  }

  /** How many of the outcomes are an application or a queueing. */
  ghost function Applied(outcomes: seq<Outcome>): nat {
    if outcomes == [] then 0
    else
      var reply := outcomes[|outcomes| - 1].reply;
      Applied(outcomes[..|outcomes| - 1])
      + if reply == Engine("tesSUCCESS") || reply == Engine("terQUEUED") then 1 else 0
  }

  /** The two totals, each by what was answered. */
  ghost predicate Tallied(s: Pipeline) {
    && s.succeeded == Applied(s.handled)
    && s.failed == s.pickFailures + |s.handled| - Applied(s.handled)
  }

  ghost predicate Conserved(s: Pipeline) {
    InOrder(s) && Counted(s) && Tallied(s) && forall tx: Tx :: Accounted(s, tx)
  }

  ghost predicate Shape(s: Pipeline) {
    && 1 <= |s.hands|
    && |s.submitCh| <= 2 * |s.hands| && |s.outcomeCh| <= 2 * |s.hands|
    && (s.submitClosed <==> s.coordinator == Draining || s.coordinator == Done)
    && (s.submitClosed ==> s.cancelled)
    && s.dropped <= (if s.submitClosed then 1 else 0)
    && (forall w :: 0 <= w < |s.hands| && s.hands[w] == Exited ==> s.submitClosed && s.submitCh == [])
    && (s.outcomeClosed ==> forall w :: 0 <= w < |s.hands| ==> s.hands[w] == Exited)
    && (s.coordinator == Done ==> s.outcomeClosed && s.outcomeCh == [])
  }

  /** Each channel takes two transactions a worker before a send has to wait. */
  lemma RoomForTwoEach(s: Pipeline, w: nat)
    requires w < |s.hands|
    ensures s.coordinator.Offering? ==> ((exists t :: Next(s, Offer, t)) <==> |s.submitCh| < 2 * |s.hands|)
    ensures s.hands[w].Sending? ==> ((exists t :: Next(s, Put(w), t)) <==> |s.outcomeCh| < 2 * |s.hands|)
  {
    if s.coordinator.Offering? && |s.submitCh| < 2 * |s.hands| {
      var t := s.(coordinator := Top, submitCh := s.submitCh + [s.coordinator.tx], sent := s.sent + [s.coordinator.tx]);
      assert Next(s, Offer, t);
    }
    if s.hands[w].Sending? && |s.outcomeCh| < 2 * |s.hands| {
      assert Next(s, Put(w), s.Hands(w, Receiving).(outcomeCh := s.outcomeCh + [s.hands[w].outcome]));
    }
  }

  lemma HandlingShape(s: Pipeline, e: Event, t: Pipeline)
    requires Shape(s) && ByHandling(e) && HandlingNext(s, e, t)
    ensures Shape(t)
  {
    hide Outcome.Succeeded;
    assert t.hands == s.hands && |t.outcomeCh| == |s.outcomeCh| - 1;
  }

  lemma WorkerShape(s: Pipeline, e: Event, t: Pipeline)
    requires Shape(s) && ByWorker(e) && WorkerNext(s, e, t)
    ensures Shape(t)
  {
    hide Outcome.Succeeded, Pipeline.Handle;
    assert s.hands[e.w] != Exited && !s.outcomeClosed;
    assert forall v :: 0 <= v < |s.hands| && v != e.w ==> t.hands[v] == s.hands[v];
  }

  lemma CoordinatorShape(s: Pipeline, e: Event, t: Pipeline)
    requires Shape(s) && !ByHandling(e) && !ByWorker(e) && CoordinatorNext(s, e, t)
    ensures Shape(t)
  {
    hide Outcome.Succeeded, Pipeline.Handle, Pipeline.Hands;
    assert t.hands == s.hands;
  }

  lemma StepShape(s: Pipeline, e: Event, t: Pipeline)
    requires Shape(s) && Next(s, e, t)
    ensures Shape(t)
  {
    hide Shape, WorkerNext, HandlingNext, CoordinatorNext;
    if ByHandling(e) {
      HandlingShape(s, e, t);
    } else if ByWorker(e) {
      WorkerShape(s, e, t);
    } else {
      CoordinatorShape(s, e, t);
    }
  }

  lemma HandledAccounted(s: Pipeline, t: Pipeline, tx: Tx)
    requires s.outcomeCh != [] && Accounted(s, tx) && t.hands == s.hands && t.received == s.received
    requires t.outcomeCh == s.outcomeCh[1..] && t.handled == s.handled + [s.outcomeCh[0]]
    ensures Accounted(t, tx)
  {
    hide InHand;
    TimesAppend(s.handled, s.outcomeCh[0], tx);
  }

  lemma WorkerAccounted(s: Pipeline, e: Event, t: Pipeline, tx: Tx)
    requires ByWorker(e) && WorkerNext(s, e, t)
    requires Accounted(s, tx) && (e.Receive? ==> s.submitCh[0] == |s.received|)
    ensures Accounted(t, tx)
  {
    hide InHand, Times;
    assert t.hands == s.hands[e.w := t.hands[e.w]];
    InHandUpdate(s.hands, e.w, t.hands[e.w], tx);
    if e.Put? {
      TimesAppend(s.outcomeCh, s.hands[e.w].outcome, tx);
    }
  }

  /** Handling an outcome moves it, counts it, and touches nothing else. */
  lemma HandlingMoves(s: Pipeline, e: Event, t: Pipeline)
    requires ByHandling(e) && HandlingNext(s, e, t)
    ensures s.outcomeCh != [] && t.outcomeCh == s.outcomeCh[1..] && t.handled == s.handled + [s.outcomeCh[0]]
    ensures t.succeeded == s.succeeded + Applied([s.outcomeCh[0]]) && t.failed == s.failed + 1 - Applied([s.outcomeCh[0]])
    ensures t.hands == s.hands && t.submitCh == s.submitCh && t.sent == s.sent && t.received == s.received
    ensures t.submitted == s.submitted && t.picked == s.picked && t.dropped == s.dropped && t.pickFailures == s.pickFailures
    ensures t.coordinator.Offering? <==> s.coordinator.Offering?
    ensures s.coordinator.Offering? ==> t.coordinator == s.coordinator
  {
    AppliedAppend([], s.outcomeCh[0]);
    assert [] + [s.outcomeCh[0]] == [s.outcomeCh[0]];
  }

  lemma AppliedAppend(outcomes: seq<Outcome>, o: Outcome)
    ensures Applied(outcomes + [o])
            == Applied(outcomes) + if o.reply == Engine("tesSUCCESS") || o.reply == Engine("terQUEUED") then 1 else 0
    ensures Applied(outcomes + [o]) == Applied(outcomes) + Applied([o])
  {
    assert (outcomes + [o])[..|outcomes|] == outcomes;
    assert [o][..0] == [];
  }

  /** A worker's step leaves the coordinator's side alone. */
  lemma WorkerMoves(s: Pipeline, e: Event, t: Pipeline)
    requires ByWorker(e) && WorkerNext(s, e, t)
    ensures e.w < |s.hands| && t.hands == s.hands[e.w := t.hands[e.w]]
    ensures t.handled == s.handled && t.sent == s.sent && t.picked == s.picked && t.dropped == s.dropped
    ensures t.coordinator == s.coordinator && t.pickFailures == s.pickFailures
    ensures t.succeeded == s.succeeded && t.failed == s.failed
    ensures if e.Receive? then
              && s.submitCh != [] && t.submitCh == s.submitCh[1..] && t.received == s.received + [s.submitCh[0]]
              && t.submitted == s.submitted + 1
            else t.submitCh == s.submitCh && t.received == s.received && t.submitted == s.submitted
    ensures |t.outcomeCh| == |s.outcomeCh| + if e.Put? then 1 else 0
    ensures e.Receive? ==> s.hands[e.w] == Receiving && t.hands[e.w].Submitting?
    ensures e.Answer? ==> s.hands[e.w].Submitting? && t.hands[e.w].Sending?
    ensures e.Put? ==> s.hands[e.w].Sending? && t.hands[e.w] == Receiving
    ensures e.Exit? ==> s.hands[e.w] == Receiving && t.hands[e.w] == Exited
  {
    hide Outcome.Succeeded, Pipeline.Handle;
  }

  lemma CoordinatorKeeps(s: Pipeline, e: Event, t: Pipeline)
    requires !ByHandling(e) && !ByWorker(e) && CoordinatorNext(s, e, t)
    ensures t.hands == s.hands && t.outcomeCh == s.outcomeCh && t.handled == s.handled
    ensures t.received == s.received && t.submitted == s.submitted
  {
  }

  lemma CoordinatorCounts(s: Pipeline, e: Event, t: Pipeline)
    requires !ByHandling(e) && !ByWorker(e) && CoordinatorNext(s, e, t)
    ensures t.succeeded == s.succeeded && t.failed - t.pickFailures == s.failed - s.pickFailures
  {
    hide Outcome.Succeeded, Pipeline.Handle, Pipeline.Hands;
  }

  lemma CoordinatorInOrder(s: Pipeline, e: Event, t: Pipeline)
    requires Shape(s) && InOrder(s) && !ByHandling(e) && !ByWorker(e) && CoordinatorNext(s, e, t)
    ensures InOrder(t)
  {
    hide Outcome.Succeeded, Pipeline.Handle, Pipeline.Hands;
    if e.Offer? {
      assert t.received + t.submitCh == s.received + s.submitCh + [s.coordinator.tx];
    } else {
      assert t.received == s.received && t.submitCh == s.submitCh && t.sent == s.sent;
    }
  }

  lemma StepInOrder(s: Pipeline, e: Event, t: Pipeline)
    requires Shape(s) && InOrder(s) && Next(s, e, t)
    ensures InOrder(t)
  {
    hide Shape, WorkerNext, HandlingNext, CoordinatorNext;
    if ByHandling(e) {
      HandlingMoves(s, e, t);
    } else if ByWorker(e) {
      WorkerMoves(s, e, t);
      assert t.received + t.submitCh == s.received + s.submitCh;
    } else {
      CoordinatorInOrder(s, e, t);
    }
  }

  lemma StepCounted(s: Pipeline, e: Event, t: Pipeline)
    requires Counted(s) && Next(s, e, t)
    ensures Counted(t)
  {
    hide WorkerNext, HandlingNext, CoordinatorNext, Busy;
    if ByHandling(e) {
      HandlingMoves(s, e, t);
    } else if ByWorker(e) {
      WorkerMoves(s, e, t);
      BusyUpdate(s.hands, e.w, t.hands[e.w]);
    } else {
      CoordinatorKeeps(s, e, t);
      CoordinatorCounts(s, e, t);
    }
  }

  lemma StepAccounted(s: Pipeline, e: Event, t: Pipeline, tx: Tx)
    requires InOrder(s) && Accounted(s, tx) && Next(s, e, t)
    ensures Accounted(t, tx)
  {
    hide InHand, Times, WorkerNext, HandlingNext, CoordinatorNext, Outcome.Succeeded;
    if ByHandling(e) {
      HandlingMoves(s, e, t);
      HandledAccounted(s, t, tx);
    } else if ByWorker(e) {
      WorkerMoves(s, e, t);
      assert e.Receive? ==> s.submitCh[0] == s.sent[|s.received|];
      WorkerAccounted(s, e, t, tx);
    } else {
      CoordinatorKeeps(s, e, t);
    }
  }

  lemma StepTallied(s: Pipeline, e: Event, t: Pipeline)
    requires Tallied(s) && Next(s, e, t)
    ensures Tallied(t)
  {
    hide WorkerNext, HandlingNext, CoordinatorNext, Applied;
    if ByHandling(e) {
      HandlingMoves(s, e, t);
      AppliedAppend(s.handled, s.outcomeCh[0]);
    } else if ByWorker(e) {
      WorkerMoves(s, e, t);
    } else {
      CoordinatorKeeps(s, e, t);
      CoordinatorCounts(s, e, t);
    }
  }

  lemma SameHands(s: Pipeline, e: Event, t: Pipeline)
    requires Next(s, e, t)
    ensures |t.hands| == |s.hands|
  {
    hide WorkerNext, HandlingNext, CoordinatorNext;
    if ByHandling(e) {
      HandlingMoves(s, e, t);
    } else if ByWorker(e) {
      WorkerMoves(s, e, t);
    } else {
      CoordinatorKeeps(s, e, t);
    }
  }

  lemma StepConserved(s: Pipeline, e: Event, t: Pipeline)
    requires Shape(s) && Conserved(s) && Next(s, e, t)
    ensures Shape(t) && Conserved(t) && |t.hands| == |s.hands|
  {
    hide WorkerNext, HandlingNext, CoordinatorNext, Shape, InOrder, Counted, Tallied, Accounted;
    StepTallied(s, e, t);
    SameHands(s, e, t);
    StepShape(s, e, t);
    StepInOrder(s, e, t);
    StepCounted(s, e, t);
    forall tx: Tx
      ensures Accounted(t, tx)
    {
      assert Accounted(s, tx);
      StepAccounted(s, e, t, tx);
    }
  }

  lemma InitConserved(s: Pipeline)
    requires Init(s)
    ensures Shape(s) && Conserved(s)
  {
    IdleHands(s.hands);
    forall tx: Tx
      ensures Accounted(s, tx)
    {
      InitInHand(s.hands, tx);
    }
  }

  lemma {:induction false} RunConserved(run: seq<Pipeline>, events: seq<Event>, n: nat)
    requires IsRun(run, events) && n <= |events|
    ensures Shape(run[n]) && Conserved(run[n])
    ensures |run[n].hands| == |run[0].hands|
  {
    hide Next, Shape, Conserved;
    if n == 0 {
      InitConserved(run[0]);
    } else {
      RunConserved(run, events, n - 1);
      assert StepAt(run, events, n - 1);
      StepConserved(run[n - 1], events[n - 1], run[n]);
    }
  }

  lemma {:induction false} InitInHand(hands: seq<Hand>, tx: Tx)
    requires forall w :: 0 <= w < |hands| ==> hands[w] == Receiving || hands[w] == Exited
    ensures InHand(hands, tx) == 0
  {
    if hands != [] {
      InitInHand(hands[..|hands| - 1], tx);
    }
  }

  /** How often an event occurs among the first `n`. */
  ghost function Occurrences(events: seq<Event>, n: nat, e: Event): nat
    requires n <= |events|
  {
    if n == 0 then 0 else Occurrences(events, n - 1, e) + if events[n - 1] == e then 1 else 0
  }

  /** The picks that failed are counted among the failures, the others are numbered. */
  lemma {:induction false} PicksTallied(run: seq<Pipeline>, events: seq<Event>, n: nat)
    requires IsRun(run, events) && n <= |events|
    ensures run[n].pickFailures == Occurrences(events, n, PickFails) && run[n].picked == Occurrences(events, n, Pick)
    ensures run[n].failed == Occurrences(events, n, PickFails) + |run[n].handled| - Applied(run[n].handled)
  {
    RunConserved(run, events, n);
    if 0 < n {
      PicksTallied(run, events, n - 1);
      assert StepAt(run, events, n - 1);
      PickStep(run[n - 1], events[n - 1], run[n]);
    }
  }

  lemma PickStep(s: Pipeline, e: Event, t: Pipeline)
    requires Next(s, e, t)
    ensures t.pickFailures == s.pickFailures + if e == PickFails then 1 else 0
    ensures t.picked == s.picked + if e == Pick then 1 else 0
  {
    hide Outcome.Succeeded, Applied;
    if ByHandling(e) {
      HandlingMoves(s, e, t);
    } else if ByWorker(e) {
      WorkerMoves(s, e, t);
    }
  }

  /** Outcome `o` carries the reply some worker was given for its transaction. */
  ghost predicate Given(run: seq<Pipeline>, events: seq<Event>, n: nat, o: Outcome)
    requires |run| == |events| + 1 && n <= |events|
  {
    exists i: nat :: i < n && GivenAt(run, events, i, o)
  }

  ghost predicate GivenAt(run: seq<Pipeline>, events: seq<Event>, i: nat, o: Outcome)
    requires |run| == |events| + 1 && i < |events|
  {
    var e := events[i];
    e.Answer? && e.w < |run[i].hands| && run[i].hands[e.w] == Submitting(o.tx) && e.reply == o.reply
  }

  ghost predicate Carried(s: Pipeline, o: Outcome) {
    o in s.handled || o in s.outcomeCh || Sending(o) in s.hands
  }

  /** Nothing is handled but what a worker was answered: no outcome is made up or altered. */
  lemma {:induction false} OutcomesAreAnswers(run: seq<Pipeline>, events: seq<Event>, n: nat, o: Outcome)
    requires IsRun(run, events) && n <= |events| && Carried(run[n], o)
    ensures Given(run, events, n, o)
  {
    if 0 < n {
      assert StepAt(run, events, n - 1);
      CarriedStep(run[n - 1], events[n - 1], run[n], o);
      if Carried(run[n - 1], o) {
        OutcomesAreAnswers(run, events, n - 1, o);
        var i: nat :| i < n - 1 && GivenAt(run, events, i, o);
        assert GivenAt(run, events, i, o);
      } else {
        assert GivenAt(run, events, n - 1, o);
      }
    }
  }

  lemma CarriedStep(s: Pipeline, e: Event, t: Pipeline, o: Outcome)
    requires Next(s, e, t) && Carried(t, o)
    ensures Carried(s, o) || (e.Answer? && e.w < |s.hands| && s.hands[e.w] == Submitting(o.tx) && e.reply == o.reply)
  {
    hide Outcome.Succeeded;
    if ByHandling(e) {
      HandlingMoves(s, e, t);
      assert s.outcomeCh[0] in s.outcomeCh;
    } else if ByWorker(e) {
      if Sending(o) in t.hands && Sending(o) !in s.hands {
        var w :| 0 <= w < |t.hands| && t.hands[w] == Sending(o);
        assert w == e.w;
      }
      if e.Put? {
        assert s.hands[e.w] in s.hands;
      }
    } else {
      CoordinatorKeeps(s, e, t);
    }
  }

  /** When the run returns, every transaction put on the channel has been submitted once, in order,
      and handled once; the totals balance; and at most one picked transaction was never sent. */
  lemma EverySentHandledOnce(run: seq<Pipeline>, events: seq<Event>, n: nat)
    requires IsRun(run, events) && n <= |events| && run[n].coordinator == Done
    ensures var s := run[n];
            && s.received == s.sent
            && (forall tx :: Times(s.handled, tx) == if tx in s.sent then 1 else 0)
            && (forall i, j :: 0 <= i < j < |s.sent| ==> s.sent[i] != s.sent[j])
            && |s.handled| == |s.sent| == s.submitted == s.succeeded + s.failed - s.pickFailures
            && s.succeeded == Applied(s.handled) && s.failed - s.pickFailures == |s.handled| - Applied(s.handled)
            && |s.sent| <= s.picked <= |s.sent| + 1
  {
    RunConserved(run, events, n);
    var s := run[n];
    assert s.hands[0] == Exited;
    IdleHands(s.hands);
    forall tx: Tx
      ensures Times(s.handled, tx) == if tx in s.sent then 1 else 0
    {
      InitInHand(s.hands, tx);
      assert Accounted(s, tx);
      assert tx < |s.sent| ==> s.sent[tx] == tx;
    }
  }

  // ---------------------------------------------------------------------------------------------
  // Progress
  // ---------------------------------------------------------------------------------------------

  ghost predicate Enabled(s: Pipeline, e: Event) {
    exists t :: Next(s, e, t)
  }

  /** Until it returns the pipeline can always move: a goroutine is ready, or the coordinator waits
      for the pacing tick alone; and once cancelled it does not even need that. */
  lemma NeverDeadlocks(run: seq<Pipeline>, events: seq<Event>, n: nat)
    requires IsRun(run, events) && n <= |events| && run[n].coordinator != Done
    ensures exists e :: Enabled(run[n], e) && e != Cancel &&
              (e == Tick ==> !run[n].cancelled && run[n].coordinator == AwaitingTick)
  {
    RunConserved(run, events, n);
    var s := run[n];
    var e := Ready(s);
  }

  lemma Ready(s: Pipeline) returns (e: Event)
    requires Shape(s) && s.coordinator != Done
    ensures Enabled(s, e) && e != Cancel && (e == Tick ==> !s.cancelled && s.coordinator == AwaitingTick)
  {
    match s.coordinator
    case Top =>
      if s.cancelled {
        e := TopSeesCancel;
        assert Next(s, e, s.StartDrain());
      } else {
        e := TopProceeds;
        assert Next(s, e, s.(coordinator := if s.paced then AwaitingTick else Picking));
      }
    case AwaitingTick =>
      if s.cancelled {
        e := WaitSeesCancel;
        assert Next(s, e, s.StartDrain());
      } else {
        e := Tick;
        assert Next(s, e, s.(coordinator := Picking));
      }
    case Picking =>
      e := Pick;
      assert Next(s, e, s.(coordinator := Offering(s.picked), picked := s.picked + 1));
    case Offering(tx) =>
      if |s.submitCh| < s.Capacity() {
        e := Offer;
        assert Next(s, e, s.(coordinator := Top, submitCh := s.submitCh + [tx], sent := s.sent + [tx]));
      } else if s.outcomeCh != [] {
        e := OfferHandles;
        assert Next(s, e, s.Handle());
      } else {
        e := WorkerReady(s, 0);
      }
    case Draining =>
      if s.outcomeCh != [] {
        e := DrainHandles;
        assert Next(s, e, s.Handle());
      } else if s.outcomeClosed {
        e := DrainEnds;
        assert Next(s, e, s.(coordinator := Done));
      } else if w :| 0 <= w < |s.hands| && s.hands[w] != Exited {
        e := WorkerReady(s, w);
      } else {
        e := CloseOutcomes;
        assert Next(s, e, s.(outcomeClosed := true));
      }
  }

  lemma WorkerReady(s: Pipeline, w: nat) returns (e: Event)
    requires Shape(s) && w < |s.hands| && s.hands[w] != Exited && s.outcomeCh == []
    requires s.submitCh != [] || s.submitClosed
    ensures Enabled(s, e) && e != Cancel && e != Tick
  {
    match s.hands[w]
    case Receiving =>
      if s.submitCh != [] {
        e := Receive(w);
        assert Next(s, e, s.Hands(w, Submitting(s.submitCh[0]))
                           .(submitCh := s.submitCh[1..], received := s.received + [s.submitCh[0]],
                             submitted := s.submitted + 1));
      } else {
        e := Exit(w);
        assert Next(s, e, s.Hands(w, Exited));
      }
    case Submitting(tx) =>
      e := Answer(w, RpcError);
      assert Next(s, e, s.Hands(w, Sending(Outcome(tx, RpcError))));
    case Sending(o) =>
      e := Put(w);
      assert Next(s, e, s.Hands(w, Receiving).(outcomeCh := s.outcomeCh + [o]));
  }

  function HandWeight(h: Hand): nat {
    match h
    case Exited => 0
    case Receiving => 1
    case Sending(_) => 3
    case Submitting(_) => 4
  }

  ghost function HandsWeight(hands: seq<Hand>): nat {
    if hands == [] then 0 else HandsWeight(hands[..|hands| - 1]) + HandWeight(hands[|hands| - 1])
  }

  function CoordinatorWeight(c: Coordinator): nat {
    match c
    case Done => 0
    case Draining => 1
    case Top => 2
    case Offering(_) => 7
    case Picking => 8
    case AwaitingTick => 9
  }

  /** How much is left to do once the run is cancelled. */
  ghost function Work(s: Pipeline): nat {
    CoordinatorWeight(s.coordinator) + (if s.outcomeClosed then 0 else 1)
    + 4 * |s.submitCh| + HandsWeight(s.hands) + |s.outcomeCh|
  }

  lemma {:induction false} HandsWeightUpdate(hands: seq<Hand>, w: nat, h: Hand)
    requires w < |hands|
    ensures HandsWeight(hands[w := h]) + HandWeight(hands[w]) == HandsWeight(hands) + HandWeight(h)
  {
    var n := |hands| - 1;
    if w < n {
      HandsWeightUpdate(hands[..n], w, h);
      assert hands[w := h][..n] == hands[..n][w := h];
    } else {
      assert hands[w := h][..n] == hands[..n];
    }
  }

  lemma {:induction false} HandsWeightBound(hands: seq<Hand>)
    ensures HandsWeight(hands) <= 4 * |hands|
  {
    if hands != [] {
      HandsWeightBound(hands[..|hands| - 1]);
    }
  }

  lemma WorkerWorks(s: Pipeline, e: Event, t: Pipeline)
    requires ByWorker(e) && WorkerNext(s, e, t)
    ensures t.cancelled == s.cancelled && Work(t) < Work(s)
  {
    hide HandsWeight, CoordinatorWeight;
    match e
    case Receive(w) => HandsWeightUpdate(s.hands, w, Submitting(s.submitCh[0]));
    case Answer(w, reply) => HandsWeightUpdate(s.hands, w, Sending(Outcome(s.hands[w].tx, reply)));
    case Put(w) => HandsWeightUpdate(s.hands, w, Receiving);
    case Exit(w) => HandsWeightUpdate(s.hands, w, Exited);
  }

  lemma CoordinatorWorks(s: Pipeline, e: Event, t: Pipeline)
    requires !ByHandling(e) && !ByWorker(e) && s.cancelled && CoordinatorNext(s, e, t)
    ensures t.cancelled && Work(t) < Work(s)
  {
    hide HandsWeight;
  }

  lemma StepWorks(s: Pipeline, e: Event, t: Pipeline)
    requires s.cancelled && Next(s, e, t)
    ensures t.cancelled && Work(t) < Work(s)
  {
    if ByWorker(e) {
      hide CoordinatorNext, HandlingNext;
      WorkerWorks(s, e, t);
    } else if ByHandling(e) {
      hide CoordinatorNext, WorkerNext, HandsWeight;
      assert |t.outcomeCh| == |s.outcomeCh| - 1;
    } else {
      hide WorkerNext, HandlingNext;
      CoordinatorWorks(s, e, t);
    }
  }

  lemma WorkBound(s: Pipeline)
    requires Shape(s)
    ensures Work(s) <= 14 * |s.hands| + 10
  {
    HandsWeightBound(s.hands);
  }

  /** After cancellation at most 14 steps a worker and 10 more are left, however the goroutines are
      scheduled; and a run that can go no further has returned. */
  lemma CancelledRunDrains(run: seq<Pipeline>, events: seq<Event>, m: nat)
    requires IsRun(run, events) && m <= |events| && run[m].cancelled
    ensures |events| - m <= 14 * |run[0].hands| + 10
    ensures (forall e :: !Enabled(run[|events|], e)) ==> run[|events|].coordinator == Done
  {
    RunConserved(run, events, m);
    WorkBound(run[m]);
    WorkBounds(run, events, m, |events|);
    if run[|events|].coordinator != Done {
      NeverDeadlocks(run, events, |events|);
    }
  }

  lemma {:induction false} WorkBounds(run: seq<Pipeline>, events: seq<Event>, m: nat, n: nat)
    requires IsRun(run, events) && m <= n <= |events| && run[m].cancelled
    ensures run[n].cancelled && n - m + Work(run[n]) <= Work(run[m])
  {
    if m < n {
      WorkBounds(run, events, m, n - 1);
      assert StepAt(run, events, n - 1);
      StepWorks(run[n - 1], events[n - 1], run[n]);
    }
  }
}
