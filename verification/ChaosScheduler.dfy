/** The chaos scheduler and the soak loop that drives it. */
module ChaosScheduler {
  /** When an event is due, and how many steps after its application it is to be reversed. */
  datatype Entry = Entry(trigger: int, recoverAfter: int)

  datatype Phase = Apply | Recover

  datatype Audit = Audit(entry: nat, phase: Phase, step: int, ok: bool)

  datatype Stats = Stats(applied: nat, recovered: nat, errored: nat)

  /** One call of Step, with what Apply and Recover of each entry would answer at that time. */
  datatype Call = Call(step: int, applyOk: nat -> bool, recoverOk: nat -> bool)

  datatype Memory = Memory(applied: set<nat>, pending: map<int, seq<nat>>, stats: Stats, audit: seq<Audit>) {
    function Emit(a: Audit): Memory {
      this.(audit := audit + [a],
            stats := if !a.ok then stats.(errored := stats.errored + 1)
                     else if a.phase.Apply? then stats.(applied := stats.applied + 1)
                     else stats.(recovered := stats.recovered + 1))
    }

    function ApplyOne(schedule: seq<Entry>, i: nat, call: Call): Memory
      requires i < |schedule|
    {
      if i in applied || call.step < schedule[i].trigger then this
      else
        var m := Emit(Audit(i, Apply, call.step, call.applyOk(i))).(applied := applied + {i});
        if call.applyOk(i) then
          var at := call.step + schedule[i].recoverAfter;
          m.(pending := pending[at := (if at in pending then pending[at] else []) + [i]])
        else m
    }

    function RecoverOne(i: nat, call: Call): Memory {
      Emit(Audit(i, Recover, call.step, call.recoverOk(i)))
    }
  }

  const INITIAL: Memory := Memory({}, map[], Stats(0, 0, 0), [])

  ghost function ApplyFirst(schedule: seq<Entry>, m: Memory, call: Call, k: nat): Memory
    requires k <= |schedule|
  {
    if k == 0 then m else ApplyFirst(schedule, m, call, k - 1).ApplyOne(schedule, k - 1, call)
  }

  ghost function RecoverAll(m: Memory, call: Call, entries: seq<nat>): Memory {
    if entries == [] then m else RecoverAll(m, call, entries[..|entries| - 1]).RecoverOne(entries[|entries| - 1], call)
  }

  ghost function RecoverDue(m: Memory, call: Call): Memory {
    if call.step in m.pending then
      var m1 := RecoverAll(m, call, m.pending[call.step]);
      m1.(pending := m1.pending - {call.step})
    else m
  }

  ghost function StepOf(schedule: seq<Entry>, m: Memory, call: Call): Memory {
    RecoverDue(ApplyFirst(schedule, m, call, |schedule|), call)
  }

  class Scheduler {
    const schedule: seq<Entry>
    var memory: Memory

    constructor (schedule: seq<Entry>)
      ensures this.schedule == schedule && memory == INITIAL
    {
      this.schedule := schedule;
      memory := INITIAL;
    }

    method Step(call: Call)
      modifies this
      ensures memory == StepOf(schedule, old(memory), call)
    {
      for i := 0 to |schedule|
        invariant memory == ApplyFirst(schedule, old(memory), call, i)
      {
        var e := schedule[i];
        if i !in memory.applied && e.trigger <= call.step {
          var ok := call.applyOk(i);
          memory := memory.Emit(Audit(i, Apply, call.step, ok)).(applied := memory.applied + {i});
          if ok {
            var recoverAt := call.step + e.recoverAfter;
            var queue := if recoverAt in memory.pending then memory.pending[recoverAt] else [];
            memory := memory.(pending := memory.pending[recoverAt := queue + [i]]);
          }
        }
      }
      if call.step in memory.pending {
        var entries := memory.pending[call.step];
        ghost var m1 := memory;
        for k := 0 to |entries|
          invariant memory == RecoverAll(m1, call, entries[..k])
        {
          assert entries[..k + 1][..k] == entries[..k];
          var i := entries[k];
          memory := memory.Emit(Audit(i, Recover, call.step, call.recoverOk(i)));
        }
        assert entries[..|entries|] == entries;
        memory := memory.(pending := memory.pending - {call.step});
      }
    }
  }

  // ---------------------------------------------------------------------------------------------
  // One entry's history
  // ---------------------------------------------------------------------------------------------

  /** What the audit trail says of entry `i`. */
  ghost function Of(audit: seq<Audit>, i: nat): seq<Audit> {
    if audit == [] then []
    else
      var a := audit[|audit| - 1];
      Of(audit[..|audit| - 1], i) + if a.entry == i then [a] else []
  }

  lemma OfAppend(audit: seq<Audit>, a: Audit, i: nat)
    ensures Of(audit + [a], i) == Of(audit, i) + if a.entry == i then [a] else []
  {
    assert (audit + [a])[..|audit|] == audit;
  }

  ghost predicate Waits(m: Memory, i: nat) {
    exists at :: at in m.pending && i in m.pending[at]
  }

  ghost predicate Applied(h: seq<Audit>, i: nat, t: int) {
    h == [Audit(i, Apply, t, true)]
  }

  /** `i` may be in the queue at `at`: it was applied recoverAfter before, and nothing else yet. */
  ghost predicate Queued(schedule: seq<Entry>, audit: seq<Audit>, at: int, i: nat) {
    i < |schedule| && Applied(Of(audit, i), i, at - schedule[i].recoverAfter)
  }

  ghost predicate Distinct(q: seq<nat>) {
    forall k, l :: 0 <= k < l < |q| ==> q[k] != q[l]
  }

  /** The queue at `at` holds each of its entries once, and each was applied recoverAfter before. */
  ghost predicate QueueOk(schedule: seq<Entry>, m: Memory, at: int) {
    at in m.pending ==> QueueIs(schedule, m.audit, at, m.pending[at])
  }

  ghost predicate EntryOk(schedule: seq<Entry>, m: Memory, i: nat) {
    var h := Of(m.audit, i);
    && (i in m.applied <==> h != [])
    && (i < |schedule| && |h| == 1 && h[0].phase.Apply? && h[0].ok ==>
          var at := h[0].step + schedule[i].recoverAfter;
          at in m.pending && i in m.pending[at])
  }

  ghost predicate Inv(schedule: seq<Entry>, m: Memory) {
    && (forall at :: QueueOk(schedule, m, at))
    && (forall i: nat :: EntryOk(schedule, m, i))
  }

  /** What one Step adds to the history of entry `i`. */
  ghost function HistoryStep(e: Entry, i: nat, h: seq<Audit>, call: Call): seq<Audit> {
    var h1 := if h == [] && e.trigger <= call.step then [Audit(i, Apply, call.step, call.applyOk(i))] else h;
    if Applied(h1, i, call.step - e.recoverAfter) then h1 + [Audit(i, Recover, call.step, call.recoverOk(i))] else h1
  }

  lemma ApplyOneOf(schedule: seq<Entry>, m: Memory, i: nat, call: Call, j: nat)
    requires i < |schedule| && EntryOk(schedule, m, i)
    ensures Of(m.ApplyOne(schedule, i, call).audit, j)
            == if j == i && Of(m.audit, i) == [] && schedule[i].trigger <= call.step
               then [Audit(i, Apply, call.step, call.applyOk(i))] else Of(m.audit, j)
  {
    OfAppend(m.audit, Audit(i, Apply, call.step, call.applyOk(i)), j);
  }

  lemma ApplyOneEntry(schedule: seq<Entry>, m: Memory, i: nat, call: Call, j: nat)
    requires i < |schedule| && EntryOk(schedule, m, i) && EntryOk(schedule, m, j)
    ensures EntryOk(schedule, m.ApplyOne(schedule, i, call), j)
  {
    hide Of;
    ApplyOneOf(schedule, m, i, call, j);
    ApplyOnePending(schedule, m, i, call);
    var m' := m.ApplyOne(schedule, i, call);
    if j != i && j < |schedule| && |Of(m.audit, j)| == 1 {
      var at := Of(m.audit, j)[0].step + schedule[j].recoverAfter;
      if at in m.pending && j in m.pending[at] {
        assert at in m'.pending && j in m'.pending[at];
      }
    }
  }

  /** Queues only grow, and only the one the applied entry goes to. */
  lemma ApplyOnePending(schedule: seq<Entry>, m: Memory, i: nat, call: Call)
    requires i < |schedule|
    ensures var m' := m.ApplyOne(schedule, i, call); var at := call.step + schedule[i].recoverAfter;
            && m.pending.Keys <= m'.pending.Keys
            && (forall a :: a in m'.pending && a != at ==> a in m.pending && m'.pending[a] == m.pending[a])
            && (at in m'.pending ==>
                  m'.pending[at] == (if at in m.pending then m.pending[at] else [])
                                    + (if m' != m && call.applyOk(i) then [i] else []))
            && (m' != m && call.applyOk(i) ==> at in m'.pending && i in m'.pending[at])
  {
    var m' := m.ApplyOne(schedule, i, call);
    var at := call.step + schedule[i].recoverAfter;
    if m' != m && call.applyOk(i) {
      assert m'.pending[at][|m'.pending[at]| - 1] == i;
    }
  }

  lemma QueuedKept(schedule: seq<Entry>, m: Memory, i: nat, call: Call, at: int, j: nat)
    requires i < |schedule| && EntryOk(schedule, m, i) && Queued(schedule, m.audit, at, j)
    ensures Queued(schedule, m.ApplyOne(schedule, i, call).audit, at, j)
    ensures m.ApplyOne(schedule, i, call) != m ==> j != i
  {
    ApplyOneOf(schedule, m, i, call, j);
  }

  ghost predicate QueueIs(schedule: seq<Entry>, audit: seq<Audit>, at: int, q: seq<nat>) {
    Distinct(q) && forall i :: i in q ==> Queued(schedule, audit, at, i)
  }

  lemma QueueAppend(schedule: seq<Entry>, audit: seq<Audit>, at: int, q: seq<nat>, i: nat)
    requires QueueIs(schedule, audit, at, q) && i !in q && Queued(schedule, audit, at, i)
    ensures QueueIs(schedule, audit, at, q + [i])
  {
  }

  lemma QueueKept(schedule: seq<Entry>, m: Memory, i: nat, call: Call, at: int, q: seq<nat>)
    requires i < |schedule| && EntryOk(schedule, m, i) && QueueIs(schedule, m.audit, at, q)
    ensures QueueIs(schedule, m.ApplyOne(schedule, i, call).audit, at, q)
    ensures m.ApplyOne(schedule, i, call) != m ==> i !in q
  {
    forall j | j in q
      ensures Queued(schedule, m.ApplyOne(schedule, i, call).audit, at, j)
      ensures m.ApplyOne(schedule, i, call) != m ==> j != i
    {
      QueuedKept(schedule, m, i, call, at, j);
    }
  }

  lemma NewlyQueued(schedule: seq<Entry>, m: Memory, i: nat, call: Call)
    requires i < |schedule| && EntryOk(schedule, m, i) && m.ApplyOne(schedule, i, call) != m && call.applyOk(i)
    ensures Queued(schedule, m.ApplyOne(schedule, i, call).audit, call.step + schedule[i].recoverAfter, i)
  {
    ApplyOneOf(schedule, m, i, call, i);
  }

  lemma ApplyOneQueue(schedule: seq<Entry>, m: Memory, i: nat, call: Call, at: int)
    requires i < |schedule| && EntryOk(schedule, m, i) && QueueOk(schedule, m, at)
    ensures QueueOk(schedule, m.ApplyOne(schedule, i, call), at)
  {
    hide Of;
    var m' := m.ApplyOne(schedule, i, call);
    var q := if at in m.pending then m.pending[at] else [];
    QueueKept(schedule, m, i, call, at, q);
    ApplyOnePending(schedule, m, i, call);
    if m' == m {
    } else if call.applyOk(i) && at == call.step + schedule[i].recoverAfter {
      NewlyQueued(schedule, m, i, call);
      QueueAppend(schedule, m'.audit, at, q, i);
      assert m'.pending[at] == q + [i];
    } else if at in m'.pending {
      assert m'.pending[at] == q + [] == q;
    }
  }

  lemma ApplyOneInv(schedule: seq<Entry>, m: Memory, i: nat, call: Call)
    requires Inv(schedule, m) && i < |schedule|
    ensures Inv(schedule, m.ApplyOne(schedule, i, call))
  {
    assert EntryOk(schedule, m, i);
    forall at
      ensures QueueOk(schedule, m.ApplyOne(schedule, i, call), at)
    {
      assert QueueOk(schedule, m, at);
      ApplyOneQueue(schedule, m, i, call, at);
    }
    forall j: nat
      ensures EntryOk(schedule, m.ApplyOne(schedule, i, call), j)
    {
      assert EntryOk(schedule, m, j);
      ApplyOneEntry(schedule, m, i, call, j);
    }
  }

  lemma {:induction false} ApplyFirstInv(schedule: seq<Entry>, m: Memory, call: Call, k: nat)
    requires Inv(schedule, m) && k <= |schedule|
    ensures Inv(schedule, ApplyFirst(schedule, m, call, k))
  {
    if 0 < k {
      ApplyFirstInv(schedule, m, call, k - 1);
      ApplyOneInv(schedule, ApplyFirst(schedule, m, call, k - 1), k - 1, call);
    }
  }

  lemma {:induction false} ApplyFirstOf(schedule: seq<Entry>, m: Memory, call: Call, k: nat, j: nat)
    requires Inv(schedule, m) && k <= |schedule|
    ensures Of(ApplyFirst(schedule, m, call, k).audit, j)
            == if j < k && Of(m.audit, j) == [] && schedule[j].trigger <= call.step
               then [Audit(j, Apply, call.step, call.applyOk(j))] else Of(m.audit, j)
  {
    if 0 < k {
      ApplyFirstOf(schedule, m, call, k - 1, j);
      assert EntryOk(schedule, ApplyFirst(schedule, m, call, k - 1), k - 1) by {
        ApplyFirstInv(schedule, m, call, k - 1);
      }
      ApplyOneOf(schedule, ApplyFirst(schedule, m, call, k - 1), k - 1, call, j);
    }
  }

  lemma {:induction false} RecoverAllKeeps(m: Memory, call: Call, entries: seq<nat>)
    ensures RecoverAll(m, call, entries).pending == m.pending && RecoverAll(m, call, entries).applied == m.applied
  {
    if entries != [] {
      RecoverAllKeeps(m, call, entries[..|entries| - 1]);
    }
  }

  lemma {:induction false} RecoverAllOf(m: Memory, call: Call, entries: seq<nat>, j: nat)
    requires Distinct(entries)
    ensures Of(RecoverAll(m, call, entries).audit, j)
            == Of(m.audit, j) + (if j in entries then [Audit(j, Recover, call.step, call.recoverOk(j))] else [])
  {
    if entries != [] {
      var n := |entries| - 1;
      var front, last := entries[..n], entries[n];
      RecoverAllOf(m, call, front, j);
      OfAppend(RecoverAll(m, call, front).audit, Audit(last, Recover, call.step, call.recoverOk(last)), j);
      assert last !in front;
      assert entries == front + [last];
    }
  }

  /** A Step moves every entry's history by exactly its own rule, and keeps the queues in order. */
  lemma StepInv(schedule: seq<Entry>, m: Memory, call: Call)
    requires Inv(schedule, m)
    ensures Inv(schedule, StepOf(schedule, m, call))
  {
    var m1 := ApplyFirst(schedule, m, call, |schedule|);
    ApplyFirstInv(schedule, m, call, |schedule|);
    forall at
      ensures QueueOk(schedule, RecoverDue(m1, call), at)
    {
      RecoverQueue(schedule, m1, call, at);
    }
    forall i: nat
      ensures EntryOk(schedule, RecoverDue(m1, call), i)
    {
      RecoverEntry(schedule, m1, call, i);
    }
  }

  lemma StepHistory(schedule: seq<Entry>, m: Memory, call: Call, i: nat)
    requires Inv(schedule, m) && i < |schedule|
    ensures Of(StepOf(schedule, m, call).audit, i) == HistoryStep(schedule[i], i, Of(m.audit, i), call)
  {
    hide Of;
    var m1 := ApplyFirst(schedule, m, call, |schedule|);
    ApplyFirstOf(schedule, m, call, |schedule|, i);
    assert QueueOk(schedule, m1, call.step) && EntryOk(schedule, m1, i) by {
      ApplyFirstInv(schedule, m, call, |schedule|);
    }
    RecoverStep(schedule, m1, call, i);
  }

  lemma RecoverStep(schedule: seq<Entry>, m1: Memory, call: Call, i: nat)
    requires i < |schedule| && QueueOk(schedule, m1, call.step) && EntryOk(schedule, m1, i)
    ensures var h := Of(m1.audit, i);
            Of(RecoverDue(m1, call).audit, i)
            == if Applied(h, i, call.step - schedule[i].recoverAfter)
               then h + [Audit(i, Recover, call.step, call.recoverOk(i))] else h
  {
    if call.step in m1.pending {
      RecoverAllOf(m1, call, m1.pending[call.step], i);
    }
  }

  lemma RecoverQueue(schedule: seq<Entry>, m1: Memory, call: Call, at: int)
    requires Inv(schedule, m1)
    ensures QueueOk(schedule, RecoverDue(m1, call), at)
  {
    assert QueueOk(schedule, m1, at) && QueueOk(schedule, m1, call.step);
    if call.step in m1.pending {
      RecoverAllKeeps(m1, call, m1.pending[call.step]);
      if at in m1.pending && at != call.step {
        forall i | i in m1.pending[at]
          ensures Queued(schedule, RecoverDue(m1, call).audit, at, i)
        {
          assert Queued(schedule, m1.audit, at, i) && EntryOk(schedule, m1, i);
          RecoverStep(schedule, m1, call, i);
        }
      }
    }
  }

  lemma RecoverEntry(schedule: seq<Entry>, m1: Memory, call: Call, i: nat)
    requires Inv(schedule, m1)
    ensures EntryOk(schedule, RecoverDue(m1, call), i)
  {
    assert EntryOk(schedule, m1, i) && QueueOk(schedule, m1, call.step);
    hide Of, Inv, RecoverAll;
    if call.step in m1.pending {
      RecoverAllKeeps(m1, call, m1.pending[call.step]);
      RecoverAllOf(m1, call, m1.pending[call.step], i);
      if i < |schedule| {
        RecoverStep(schedule, m1, call, i);
      }
    }
  }

  // ---------------------------------------------------------------------------------------------
  // Whole runs
  // ---------------------------------------------------------------------------------------------

  ghost function After(schedule: seq<Entry>, calls: seq<Call>, n: nat): Memory
    requires n <= |calls|
  {
    if n == 0 then INITIAL else StepOf(schedule, After(schedule, calls, n - 1), calls[n - 1])
  }

  lemma {:induction false} AfterInv(schedule: seq<Entry>, calls: seq<Call>, n: nat)
    requires n <= |calls|
    ensures Inv(schedule, After(schedule, calls, n))
  {
    if 0 < n {
      AfterInv(schedule, calls, n - 1);
      StepInv(schedule, After(schedule, calls, n - 1), calls[n - 1]);
    }
  }

  /** What a step is compared with: a trigger, or the step of a queue. */
  datatype Wanted = AtLeast(bound: int) | Exactly(at: int) {
    ghost predicate Holds(step: int) {
      match this
      case AtLeast(bound) => bound <= step
      case Exactly(at) => step == at
    }
  }

  /** The first of the calls from `m` up to `n` that is wanted, or n. */
  ghost function First(calls: seq<Call>, m: nat, n: nat, w: Wanted): (c: nat)
    requires m <= n <= |calls|
    ensures m <= c <= n && (c < n ==> w.Holds(calls[c].step))
    ensures forall d :: m <= d < c ==> !w.Holds(calls[d].step)
    decreases n - m
  {
    if m == n then n else if w.Holds(calls[m].step) then m else First(calls, m + 1, n, w)
  }

  /** The first call at or past the entry's trigger. */
  ghost function ApplyCall(e: Entry, calls: seq<Call>, n: nat): nat
    requires n <= |calls|
  {
    First(calls, 0, n, AtLeast(e.trigger))
  }

  /** The first call, from call `c` on, whose step is exactly recoverAfter past that of `c`. */
  ghost function RecoverCall(e: Entry, calls: seq<Call>, c: nat, n: nat): nat
    requires c < n <= |calls|
  {
    First(calls, c, n, Exactly(calls[c].step + e.recoverAfter))
  }

  /** What becomes of an entry over `n` calls, said without the scheduler. */
  ghost function Fate(e: Entry, i: nat, calls: seq<Call>, n: nat): seq<Audit>
    requires n <= |calls|
  {
    var c := ApplyCall(e, calls, n);
    if c == n then []
    else if !calls[c].applyOk(i) then [Audit(i, Apply, calls[c].step, false)]
    else
      var d := RecoverCall(e, calls, c, n);
      var applied := Audit(i, Apply, calls[c].step, true);
      if d == n then [applied] else [applied, Audit(i, Recover, calls[d].step, calls[d].recoverOk(i))]
  }

  lemma {:induction false} FirstGrows(calls: seq<Call>, m: nat, n: nat, w: Wanted)
    requires m <= n < |calls|
    ensures First(calls, m, n + 1, w) ==
              if First(calls, m, n, w) < n then First(calls, m, n, w) else if w.Holds(calls[n].step) then n else n + 1
    decreases n - m
  {
    if m < n {
      FirstGrows(calls, m + 1, n, w);
    }
  }

  /** Until it is applied an entry has no history. */
  lemma FateBegins(e: Entry, i: nat, calls: seq<Call>, n: nat)
    requires n < |calls| && n <= ApplyCall(e, calls, n + 1)
    ensures Fate(e, i, calls, n + 1) == HistoryStep(e, i, Fate(e, i, calls, n), calls[n])
  {
    hide First;
    FirstGrows(calls, 0, n, AtLeast(e.trigger));
    assert Fate(e, i, calls, n) == [];
    if ApplyCall(e, calls, n + 1) == n {
      FirstGrows(calls, n, n, Exactly(calls[n].step + e.recoverAfter));
    }
  }

  lemma FateContinues(e: Entry, i: nat, calls: seq<Call>, n: nat)
    requires n < |calls| && ApplyCall(e, calls, n + 1) < n
    ensures Fate(e, i, calls, n + 1) == HistoryStep(e, i, Fate(e, i, calls, n), calls[n])
  {
    hide First;
    FirstGrows(calls, 0, n, AtLeast(e.trigger));
    var c := ApplyCall(e, calls, n + 1);
    FirstGrows(calls, c, n, Exactly(calls[c].step + e.recoverAfter));
    if calls[c].applyOk(i) && RecoverCall(e, calls, c, n) < n {
      assert |Fate(e, i, calls, n)| == 2;
    }
  }

  lemma FateGrows(e: Entry, i: nat, calls: seq<Call>, n: nat)
    requires n < |calls|
    ensures Fate(e, i, calls, n + 1) == HistoryStep(e, i, Fate(e, i, calls, n), calls[n])
  {
    if n <= ApplyCall(e, calls, n + 1) {
      FateBegins(e, i, calls, n);
    } else {
      FateContinues(e, i, calls, n);
    }
  }

  lemma NoFate(schedule: seq<Entry>, calls: seq<Call>, i: nat)
    requires i < |schedule|
    ensures Of(After(schedule, calls, 0).audit, i) == Fate(schedule[i], i, calls, 0)
  {
  }

  /** Over any sequence of Step calls each entry is applied once, at the first call at or past its
      trigger; it is recovered at most once, only after an application that succeeded, and at the
      first call, if any, whose step is exactly recoverAfter past that of the application. */
  lemma {:induction false} EntryFate(schedule: seq<Entry>, calls: seq<Call>, n: nat, i: nat)
    requires n <= |calls| && i < |schedule|
    ensures Of(After(schedule, calls, n).audit, i) == Fate(schedule[i], i, calls, n)
  {
    hide Of, Fate, HistoryStep, Inv, StepOf;
    if n == 0 {
      NoFate(schedule, calls, i);
    } else {
      EntryFate(schedule, calls, n - 1, i);
      AfterInv(schedule, calls, n - 1);
      StepHistory(schedule, After(schedule, calls, n - 1), calls[n - 1], i);
      FateGrows(schedule[i], i, calls, n - 1);
    }
  }

  /** Call `c` is the first at or past the trigger. */
  ghost predicate FirstAtOrPast(calls: seq<Call>, trigger: int, c: nat) {
    c < |calls| && trigger <= calls[c].step && forall d :: 0 <= d < c ==> calls[d].step < trigger
  }

  /** Call `d` is the first from `c` on at exactly `after` steps past it. */
  ghost predicate FirstExactly(calls: seq<Call>, c: nat, after: int, d: nat) {
    && c <= d < |calls| && calls[d].step == calls[c].step + after
    && forall x :: c <= x < d ==> calls[x].step != calls[c].step + after
  }

  /** The same in terms of the calls alone: when each entry is applied, and when it is recovered. */
  lemma FateByCalls(schedule: seq<Entry>, calls: seq<Call>, i: nat)
    requires i < |schedule|
    ensures var e, h := schedule[i], Of(After(schedule, calls, |calls|).audit, i);
            && ((forall c :: 0 <= c < |calls| ==> calls[c].step < e.trigger) ==> h == [])
            && (forall c: nat :: FirstAtOrPast(calls, e.trigger, c) ==>
                  && |h| >= 1 && h[0] == Audit(i, Apply, calls[c].step, calls[c].applyOk(i))
                  && (!calls[c].applyOk(i) ==> |h| == 1)
                  && (forall d: nat :: calls[c].applyOk(i) && FirstExactly(calls, c, e.recoverAfter, d) ==>
                        h == [h[0], Audit(i, Recover, calls[d].step, calls[d].recoverOk(i))])
                  && ((forall d :: c <= d < |calls| ==> calls[d].step != calls[c].step + e.recoverAfter) ==> |h| == 1))
  {
    hide Of, After;
    var e, n := schedule[i], |calls|;
    EntryFate(schedule, calls, n, i);
    var c0 := ApplyCall(e, calls, n);
    forall c: nat | FirstAtOrPast(calls, e.trigger, c)
      ensures c == c0
    {
      assert AtLeast(e.trigger).Holds(calls[c].step);
    }
    if c0 < n {
      var d0 := RecoverCall(e, calls, c0, n);
      forall d: nat | FirstExactly(calls, c0, e.recoverAfter, d)
        ensures d == d0
      {
        assert Exactly(calls[c0].step + e.recoverAfter).Holds(calls[d].step);
      }
    }
  }

  /** One call audits its applications in the order of the schedule, then its recoveries in the order
      they were queued. */
  lemma {:induction false} AppliedInOrder(schedule: seq<Entry>, m: Memory, call: Call, k: nat)
    requires k <= |schedule|
    ensures AddsInOrder(m.audit, ApplyFirst(schedule, m, call, k).audit, call.step, k)
  {
    if 0 < k {
      AppliedInOrder(schedule, m, call, k - 1);
    }
  }

  /** `after` is `before` and then applications at `step`, of entries below `k`, in their order. */
  ghost predicate AddsInOrder(before: seq<Audit>, after: seq<Audit>, step: int, k: nat) {
    && before <= after
    && (forall x :: |before| <= x < |after| ==> after[x].phase.Apply? && after[x].step == step && after[x].entry < k)
    && (forall x, y :: |before| <= x < y < |after| ==> after[x].entry < after[y].entry)
  }

  lemma {:induction false} RecoveredInOrder(m: Memory, call: Call, entries: seq<nat>)
    ensures var m' := RecoverAll(m, call, entries);
            && |m'.audit| == |m.audit| + |entries| && m.audit <= m'.audit
            && forall x :: 0 <= x < |entries| ==>
                 m'.audit[|m.audit| + x] == Audit(entries[x], Recover, call.step, call.recoverOk(entries[x]))
  {
    if entries != [] {
      RecoveredInOrder(m, call, entries[..|entries| - 1]);
    }
  }

  // ---------------------------------------------------------------------------------------------
  // The totals
  // ---------------------------------------------------------------------------------------------

  /** How many of the audit entries are of one kind. */
  ghost function Count(audit: seq<Audit>, phase: Phase, ok: bool): nat {
    if audit == [] then 0
    else
      var a := audit[|audit| - 1];
      Count(audit[..|audit| - 1], phase, ok) + One(a, phase, ok)
  }

  lemma CountAppend(audit: seq<Audit>, a: Audit, phase: Phase, ok: bool)
    ensures Count(audit + [a], phase, ok) == Count(audit, phase, ok) + One(a, phase, ok)
  {
    assert (audit + [a])[..|audit|] == audit;
  }

  ghost predicate StatsOk(m: Memory) {
    && m.stats.applied == Count(m.audit, Apply, true)
    && m.stats.recovered == Count(m.audit, Recover, true)
    && m.stats.errored == Count(m.audit, Apply, false) + Count(m.audit, Recover, false)
  }

  lemma EmitStats(m: Memory, a: Audit)
    requires StatsOk(m)
    ensures StatsOk(m.Emit(a))
  {
    hide Count;
    CountAppend(m.audit, a, Apply, true);
    CountAppend(m.audit, a, Recover, true);
    CountAppend(m.audit, a, Apply, false);
    CountAppend(m.audit, a, Recover, false);
  }

  lemma {:induction false} ApplyFirstStats(schedule: seq<Entry>, m: Memory, call: Call, k: nat)
    requires StatsOk(m) && k <= |schedule|
    ensures StatsOk(ApplyFirst(schedule, m, call, k))
  {
    if 0 < k {
      ApplyFirstStats(schedule, m, call, k - 1);
      EmitStats(ApplyFirst(schedule, m, call, k - 1), Audit(k - 1, Apply, call.step, call.applyOk(k - 1)));
    }
  }

  lemma {:induction false} RecoverAllStats(m: Memory, call: Call, entries: seq<nat>)
    requires StatsOk(m)
    ensures StatsOk(RecoverAll(m, call, entries))
  {
    if entries != [] {
      var n := |entries| - 1;
      RecoverAllStats(m, call, entries[..n]);
      EmitStats(RecoverAll(m, call, entries[..n]), Audit(entries[n], Recover, call.step, call.recoverOk(entries[n])));
    }
  }

  lemma {:induction false} AfterStats(schedule: seq<Entry>, calls: seq<Call>, n: nat)
    requires n <= |calls|
    ensures StatsOk(After(schedule, calls, n))
  {
    if 0 < n {
      AfterStats(schedule, calls, n - 1);
      var m, call := After(schedule, calls, n - 1), calls[n - 1];
      ApplyFirstStats(schedule, m, call, |schedule|);
      var m1 := ApplyFirst(schedule, m, call, |schedule|);
      if call.step in m1.pending {
        RecoverAllStats(m1, call, m1.pending[call.step]);
      }
    }
  }

  /** The same count, entry by entry. */
  ghost function Sum(audit: seq<Audit>, phase: Phase, ok: bool, k: nat): nat {
    if k == 0 then 0 else Sum(audit, phase, ok, k - 1) + Count(Of(audit, k - 1), phase, ok)
  }

  lemma {:induction false} SumAppend(audit: seq<Audit>, a: Audit, phase: Phase, ok: bool, k: nat)
    ensures Sum(audit + [a], phase, ok, k)
            == Sum(audit, phase, ok, k) + if a.entry < k && a.phase == phase && a.ok == ok then 1 else 0
  {
    if 0 < k {
      SumAppend(audit, a, phase, ok, k - 1);
      OfAppend(audit, a, k - 1);
      CountAppend(Of(audit, k - 1), a, phase, ok);
      assert Of(audit, k - 1) + [] == Of(audit, k - 1);
    }
  }

  ghost predicate EntriesBelow(audit: seq<Audit>, k: nat) {
    forall x :: 0 <= x < |audit| ==> audit[x].entry < k
  }

  lemma {:induction false} CountBySum(audit: seq<Audit>, phase: Phase, ok: bool, k: nat)
    requires EntriesBelow(audit, k)
    ensures Count(audit, phase, ok) == Sum(audit, phase, ok, k)
  {
    if audit == [] {
      EmptySum(phase, ok, k);
    } else {
      var front, a := audit[..|audit| - 1], audit[|audit| - 1];
      CountBySum(front, phase, ok, k);
      SumAppend(front, a, phase, ok, k);
      assert audit == front + [a];
    }
  }

  lemma {:induction false} EmptySum(phase: Phase, ok: bool, k: nat)
    ensures Sum([], phase, ok, k) == 0
  {
    if 0 < k {
      EmptySum(phase, ok, k - 1);
    }
  }

  /** How many of the first `k` entries are waiting to be recovered. */
  ghost function Waiting(m: Memory, k: nat): nat {
    if k == 0 then 0 else Waiting(m, k - 1) + if Waits(m, k - 1) then 1 else 0
  }

  /** Applied with success, and nothing since. */
  ghost predicate Outstanding(h: seq<Audit>) {
    |h| == 1 && h[0].phase.Apply? && h[0].ok
  }

  lemma WaitsIfApplied(schedule: seq<Entry>, m: Memory, i: nat)
    requires Inv(schedule, m) && i < |schedule|
    ensures Waits(m, i) <==> Outstanding(Of(m.audit, i))
  {
    assert EntryOk(schedule, m, i);
    var h := Of(m.audit, i);
    if Waits(m, i) {
      var at :| at in m.pending && i in m.pending[at];
      assert QueueOk(schedule, m, at);
      assert Queued(schedule, m.audit, at, i);
      assert Applied(h, i, at - schedule[i].recoverAfter);
    }
  }

  lemma FateBalances(schedule: seq<Entry>, calls: seq<Call>, n: nat, i: nat)
    requires n <= |calls| && i < |schedule|
    ensures var m := After(schedule, calls, n); var h := Of(m.audit, i);
            Count(h, Apply, true) == Count(h, Recover, true) + Count(h, Recover, false) + if Waits(m, i) then 1 else 0
  {
    var m := After(schedule, calls, n);
    EntryFate(schedule, calls, n, i);
    AfterInv(schedule, calls, n);
    WaitsIfApplied(schedule, m, i);
    var h := Of(m.audit, i);
    CountShort(h, Apply, true);
    CountShort(h, Recover, true);
    CountShort(h, Recover, false);
  }

  ghost function One(a: Audit, phase: Phase, ok: bool): nat {
    if a.phase == phase && a.ok == ok then 1 else 0
  }

  lemma CountShort(h: seq<Audit>, phase: Phase, ok: bool)
    requires |h| <= 2
    ensures Count(h, phase, ok)
            == (if |h| < 1 then 0 else One(h[0], phase, ok)) + (if |h| < 2 then 0 else One(h[1], phase, ok))
  {
    if |h| != 0 {
      CountAppend([], h[0], phase, ok);
      assert [] + [h[0]] == [h[0]];
      if |h| == 2 {
        CountAppend([h[0]], h[1], phase, ok);
        assert [h[0]] + [h[1]] == h;
      } else {
        assert [h[0]] == h;
      }
    }
  }

  lemma {:induction false} SumsBalance(schedule: seq<Entry>, calls: seq<Call>, n: nat, k: nat)
    requires n <= |calls| && k <= |schedule|
    ensures var m := After(schedule, calls, n);
            Sum(m.audit, Apply, true, k) == Sum(m.audit, Recover, true, k) + Sum(m.audit, Recover, false, k) + Waiting(m, k)
  {
    if 0 < k {
      SumsBalance(schedule, calls, n, k - 1);
      FateBalances(schedule, calls, n, k - 1);
    }
  }

  lemma {:induction false} AuditEntries(schedule: seq<Entry>, calls: seq<Call>, n: nat)
    requires n <= |calls|
    ensures EntriesBelow(After(schedule, calls, n).audit, |schedule|)
  {
    if 0 < n {
      AuditEntries(schedule, calls, n - 1);
      AfterInv(schedule, calls, n - 1);
      var m, call := After(schedule, calls, n - 1), calls[n - 1];
      ApplyFirstEntries(schedule, m, call, |schedule|);
      ApplyFirstInv(schedule, m, call, |schedule|);
      var m1 := ApplyFirst(schedule, m, call, |schedule|);
      assert QueueOk(schedule, m1, call.step);
      if call.step in m1.pending {
        var q := m1.pending[call.step];
        assert forall k :: 0 <= k < |q| ==> q[k] in q;
        RecoverAllEntries(schedule, m1, call, q);
      }
    }
  }

  lemma {:induction false} ApplyFirstEntries(schedule: seq<Entry>, m: Memory, call: Call, k: nat)
    requires k <= |schedule| && EntriesBelow(m.audit, |schedule|)
    ensures EntriesBelow(ApplyFirst(schedule, m, call, k).audit, |schedule|)
  {
    if 0 < k {
      ApplyFirstEntries(schedule, m, call, k - 1);
      var m1 := ApplyFirst(schedule, m, call, k - 1);
      assert EntriesBelow(m1.Emit(Audit(k - 1, Apply, call.step, call.applyOk(k - 1))).audit, |schedule|);
    }
  }

  lemma {:induction false} RecoverAllEntries(schedule: seq<Entry>, m: Memory, call: Call, q: seq<nat>)
    requires EntriesBelow(m.audit, |schedule|)
    requires forall k :: 0 <= k < |q| ==> q[k] < |schedule|
    ensures EntriesBelow(RecoverAll(m, call, q).audit, |schedule|)
  {
    if q != [] {
      var n := |q| - 1;
      RecoverAllEntries(schedule, m, call, q[..n]);
      assert EntriesBelow(RecoverAll(m, call, q[..n]).Emit(Audit(q[n], Recover, call.step, call.recoverOk(q[n]))).audit, |schedule|);
    }
  }

  /** Every application that succeeded is accounted for: recovered, failed to recover, or waiting.
      And the error total is the failed applications and the failed recoveries. */
  lemma EventsBalance(schedule: seq<Entry>, calls: seq<Call>, n: nat)
    requires n <= |calls|
    ensures var m := After(schedule, calls, n);
            && m.stats.applied == m.stats.recovered + Count(m.audit, Recover, false) + Waiting(m, |schedule|)
            && m.stats.errored == Count(m.audit, Apply, false) + Count(m.audit, Recover, false)
  {
    var m := After(schedule, calls, n);
    AfterStats(schedule, calls, n);
    AuditEntries(schedule, calls, n);
    CountBySum(m.audit, Apply, true, |schedule|);
    CountBySum(m.audit, Recover, true, |schedule|);
    CountBySum(m.audit, Recover, false, |schedule|);
    SumsBalance(schedule, calls, n, |schedule|);
  }

  // ---------------------------------------------------------------------------------------------
  // The soak loop
  // ---------------------------------------------------------------------------------------------

  /** The periodic block of the soak: it fires after the successes numbered 9, 19, 29, ... */
  method SoakTicks(outcomes: seq<bool>) returns (ticks: seq<int>, step: nat)
    ensures step == multiset(outcomes)[true]
    ensures |ticks| == (step + 1) / 10
    ensures forall k :: 0 <= k < |ticks| ==> ticks[k] == 10 * k + 9
  {
    ticks, step := [], 0;
    for i := 0 to |outcomes|
      invariant step == multiset(outcomes[..i])[true]
      invariant |ticks| == (step + 1) / 10
      invariant forall k :: 0 <= k < |ticks| ==> ticks[k] == 10 * k + 9
    {
      assert outcomes[..i + 1] == outcomes[..i] + [outcomes[i]];
      if !outcomes[i] {
        continue;
      }
      step := step + 1;
      if step % 10 == 9 {
        ticks := ticks + [step];
      }
    }
    assert outcomes[..|outcomes|] == outcomes;
  }

  ghost predicate OnSoakGrid(calls: seq<Call>) {
    forall k :: 0 <= k < |calls| ==> calls[k].step == 10 * k + 9
  }

  /** On the soak's ticks an applied event is reversed exactly when recoverAfter is a non-negative
      multiple of ten and the run gets that far, and then exactly recoverAfter steps later. */
  lemma SoakRecovery(schedule: seq<Entry>, calls: seq<Call>, i: nat)
    requires OnSoakGrid(calls) && i < |schedule|
    ensures var e, h := schedule[i], Of(After(schedule, calls, |calls|).audit, i);
            var c := ApplyCall(e, calls, |calls|);
            && (h != [] <==> c < |calls|)
            && (c < |calls| && calls[c].applyOk(i) ==>
                  (|h| == 2 <==> 0 <= e.recoverAfter && e.recoverAfter % 10 == 0 && c + e.recoverAfter / 10 < |calls|))
            && (|h| == 2 ==> h[1].phase.Recover? && h[1].step == h[0].step + e.recoverAfter)
  {
    EntryFate(schedule, calls, |calls|, i);
    var e := schedule[i];
    var c := ApplyCall(e, calls, |calls|);
    if c < |calls| && calls[c].applyOk(i) {
      var d := RecoverCall(e, calls, c, |calls|);
      if 0 <= e.recoverAfter && e.recoverAfter % 10 == 0 && c + e.recoverAfter / 10 < |calls| {
        var k := c + e.recoverAfter / 10;
        assert calls[k].step == calls[c].step + e.recoverAfter;
      }
    }
  }

  /** The first entry of the example schedule, due at step 50 with recover_after 25, is applied at
      step 59 and never reversed, however long the soak runs. */
  lemma {:induction false} ExampleNeverRecovers(calls: seq<Call>)
    requires OnSoakGrid(calls) && 6 <= |calls| && calls[5].applyOk(0)
    ensures Of(After([Entry(50, 25)], calls, |calls|).audit, 0) == [Audit(0, Apply, 59, true)]
  {
    var schedule := [Entry(50, 25)];
    EntryFate(schedule, calls, |calls|, 0);
    assert calls[4].step == 49 && calls[5].step == 59;
    assert ApplyCall(schedule[0], calls, |calls|) == 5;
    SoakRecovery(schedule, calls, 0);
  }
}
