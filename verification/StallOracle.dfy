/** The consensus-progress oracle: one finding per stall episode.

    An episode is a maximal stretch of ticks at each of which some node's closed ledger is more than
    the threshold ahead of its validated one. */
module StallOracle {
  datatype ProgressInput = ProgressInput(node: string, closed: int, validated: int)

  /** Durations and times in nanoseconds. */
  const DEFAULT_GAP_THRESHOLD: int := 10
  const DEFAULT_SUSTAIN_FOR: int := 120_000_000_000

  ghost predicate DistinctNodes(inputs: seq<ProgressInput>) {
    forall i, j :: 0 <= i < j < |inputs| ==> inputs[i].node != inputs[j].node
  }

  /** The nodes of a snapshot that are more than the threshold behind. */
  ghost function Stalled(inputs: seq<ProgressInput>, gap: int): set<string> {
    set i | 0 <= i < |inputs| && gap < inputs[i].closed - inputs[i].validated :: inputs[i].node
  }

  datatype Settings = Settings(gap: int, sustain: int)

  datatype Memory = Memory(starts: map<string, int>, open: bool)

  ghost predicate Overdue(s: Settings, starts: map<string, int>, now: int) {
    exists n :: n in starts && s.sustain <= now - starts[n]
  }

  ghost function NewStarts(starts: map<string, int>, stalled: set<string>, now: int): map<string, int> {
    map n | n in stalled :: if n in starts then starts[n] else now
  }

  /** The memory after a tick. */
  ghost function Step(s: Settings, m: Memory, now: int, inputs: seq<ProgressInput>): Memory {
    var starts := NewStarts(m.starts, Stalled(inputs, s.gap), now);
    Memory(starts, starts != map[] && (m.open || Overdue(s, starts, now)))
  }

  /** A tick adds a finding when it opens one. */
  ghost predicate Emits(s: Settings, m: Memory, now: int, inputs: seq<ProgressInput>) {
    !m.open && Step(s, m, now, inputs).open
  }

  class Oracle {
    const gapThreshold: int
    const sustainFor: int
    var stallStarts: map<string, int>
    var openFinding: bool
    /** When each finding was opened. */
    var findings: seq<int>

    constructor (gapThreshold: int, sustainFor: int)
      ensures this.gapThreshold == if gapThreshold <= 0 then 10 else gapThreshold
      ensures this.sustainFor == if sustainFor <= 0 then 120_000_000_000 else sustainFor
      ensures View() == Memory(map[], false) && findings == []
    {
      this.gapThreshold := if gapThreshold <= 0 then DEFAULT_GAP_THRESHOLD else gapThreshold;
      this.sustainFor := if sustainFor <= 0 then DEFAULT_SUSTAIN_FOR else sustainFor;
      stallStarts, openFinding, findings := map[], false, [];
    }

    ghost function View(): Memory
      reads this
    {
      Memory(stallStarts, openFinding)
    }

    ghost function Config(): Settings {
      Settings(gapThreshold, sustainFor)
    }

    method Tick(now: int, inputs: seq<ProgressInput>)
      requires 0 < sustainFor && DistinctNodes(inputs)
      modifies this
      ensures View() == Step(Config(), old(View()), now, inputs)
      ensures findings == old(findings) + if Emits(Config(), old(View()), now, inputs) then [now] else []
    {
      if inputs == [] {
        stallStarts := map[];
        openFinding := false;
        return;
      }
      var starts, worst, stalled := Track(stallStarts, now, inputs, gapThreshold);
      stallStarts := starts;
      if !stalled {
        openFinding := false;
        return;
      }
      if openFinding || worst < sustainFor {
        return;
      }
      openFinding := true;
      findings := findings + [now];
    }
  }

  /** The longest of the stalls, 0 if none is positive. */
  ghost predicate IsWorst(starts: map<string, int>, stalled: set<string>, now: int, worst: int) {
    && 0 <= worst
    && (0 < worst ==> exists n :: n in stalled && n in starts && worst == now - starts[n])
    && (forall n :: n in stalled && n in starts ==> now - starts[n] <= worst)
  }

  /** The loop variables of a tick. */
  datatype Tracking = Tracking(starts: map<string, int>, worst: int, stalled: bool, seen: set<string>) {
    function Follow(x: ProgressInput, now: int, gap: int): Tracking {
      if gap < x.closed - x.validated then
        var starts1 := if x.node in starts then starts else starts[x.node := now];
        var d := now - starts1[x.node];
        Tracking(starts1, if worst < d then d else worst, true, seen + {x.node})
      else
        this.(starts := starts - {x.node}, seen := seen + {x.node})
    }
  }

  ghost function FollowAll(t: Tracking, inputs: seq<ProgressInput>, now: int, gap: int): Tracking {
    if inputs == [] then t
    else FollowAll(t, inputs[..|inputs| - 1], now, gap).Follow(inputs[|inputs| - 1], now, gap)
  }

  /** The two loops of a tick: follow each node's onset, then purge the nodes that dropped out. */
  method Track(stallStarts: map<string, int>, now: int, inputs: seq<ProgressInput>, gap: int)
    returns (starts: map<string, int>, worst: int, stalled: bool)
    requires DistinctNodes(inputs)
    ensures starts == NewStarts(stallStarts, Stalled(inputs, gap), now)
    ensures stalled <==> starts != map[]
    ensures IsWorst(starts, starts.Keys, now, worst)
  {
    var t := FollowNodes(stallStarts, now, inputs, gap);
    FollowAllTracks(stallStarts, inputs, now, gap);
    starts := Purge(t.starts, t.seen);
    return starts, t.worst, t.stalled;
  }

  method FollowNodes(stallStarts: map<string, int>, now: int, inputs: seq<ProgressInput>, gap: int)
    returns (t: Tracking)
    ensures t == FollowAll(Tracking(stallStarts, 0, false, {}), inputs, now, gap)
  {
    var starts, worst, stalled, seen := stallStarts, 0, false, {};
    for i := 0 to |inputs|
      invariant Tracking(starts, worst, stalled, seen)
                == FollowAll(Tracking(stallStarts, 0, false, {}), inputs[..i], now, gap)
    {
      var x := inputs[i];
      assert inputs[..i + 1][..i] == inputs[..i];
      seen := seen + {x.node};
      if gap < x.closed - x.validated {
        if x.node !in starts {
          starts := starts[x.node := now];
        }
        var d := now - starts[x.node];
        if worst < d {
          worst := d;
        }
        stalled := true;
      } else {
        starts := starts - {x.node};
      }
    }
    assert inputs[..|inputs|] == inputs;
    t := Tracking(starts, worst, stalled, seen);
  }

  method Purge(starts: map<string, int>, seen: set<string>) returns (r: map<string, int>)
    ensures r == Restrict(starts, seen)
  {
    r := starts;
    var rest := starts.Keys;
    while rest != {}
      invariant rest <= starts.Keys
      invariant r == map n | n in starts && (n in rest || n in seen) :: starts[n]
      decreases rest
    {
      var n :| n in rest;
      rest := rest - {n};
      if n !in seen {
        r := r - {n};
      }
    }
  }

  ghost function Restrict(starts: map<string, int>, seen: set<string>): map<string, int> {
    map n | n in starts && n in seen :: starts[n]
  }

  ghost function NodesOf(inputs: seq<ProgressInput>): set<string> {
    set i | 0 <= i < |inputs| :: inputs[i].node
  }

  /** While a tick is under way, the onsets of the nodes seen are up to date and the others old. */
  ghost predicate Tracks(old_: map<string, int>, seen: set<string>, stalled: set<string>, now: int, t: Tracking) {
    && stalled <= seen && t.seen == seen
    && t.starts == (old_ - seen) + NewStarts(old_, stalled, now)
    && (t.stalled <==> stalled != {})
    && IsWorst(t.starts, stalled, now, t.worst)
  }

  lemma {:induction false} FollowAllTracks(old_: map<string, int>, inputs: seq<ProgressInput>, now: int, gap: int)
    requires DistinctNodes(inputs)
    ensures var t := FollowAll(Tracking(old_, 0, false, {}), inputs, now, gap);
            && Tracks(old_, NodesOf(inputs), Stalled(inputs, gap), now, t)
            && Restrict(t.starts, t.seen) == NewStarts(old_, Stalled(inputs, gap), now)
            && (t.stalled <==> Restrict(t.starts, t.seen) != map[])
            && IsWorst(Restrict(t.starts, t.seen), Restrict(t.starts, t.seen).Keys, now, t.worst)
  {
    var t := FollowAll(Tracking(old_, 0, false, {}), inputs, now, gap);
    if inputs == [] {
      assert old_ - {} == old_ && NewStarts(old_, {}, now) == map[];
    } else {
      var front, x := inputs[..|inputs| - 1], inputs[|inputs| - 1];
      FollowAllTracks(old_, front, now, gap);
      assert inputs == front + [x];
      StalledAppend(front, x, gap);
      NewNode(front, x);
      FollowTracks(old_, NodesOf(front), Stalled(front, gap), x, now, gap,
                   FollowAll(Tracking(old_, 0, false, {}), front, now, gap));
    }
    PurgedTracks(old_, NodesOf(inputs), Stalled(inputs, gap), now, t);
  }

  lemma PurgedTracks(old_: map<string, int>, seen: set<string>, stalled: set<string>, now: int, t: Tracking)
    requires Tracks(old_, seen, stalled, now, t)
    ensures Restrict(t.starts, t.seen) == NewStarts(old_, stalled, now)
    ensures t.stalled <==> Restrict(t.starts, t.seen) != map[]
    ensures IsWorst(Restrict(t.starts, t.seen), Restrict(t.starts, t.seen).Keys, now, t.worst)
  {
    assert Restrict(t.starts, t.seen).Keys == stalled;
  }

  lemma FollowTracks(old_: map<string, int>, seen: set<string>, stalled: set<string>, x: ProgressInput, now: int,
                     gap: int, t: Tracking)
    requires Tracks(old_, seen, stalled, now, t) && x.node !in seen
    ensures Tracks(old_, seen + {x.node}, stalled + (if gap < x.closed - x.validated then {x.node} else {}), now,
                   t.Follow(x, now, gap))
  {
    PartlyMore(old_, seen, stalled, now, x.node);
    WorstMore(t.starts, stalled, now, t.worst, x.node);
    assert stalled + {} == stalled;
  }

  lemma NewNode(inputs: seq<ProgressInput>, x: ProgressInput)
    requires DistinctNodes(inputs + [x])
    ensures x.node !in NodesOf(inputs) && NodesOf(inputs + [x]) == NodesOf(inputs) + {x.node}
  {
    var all := inputs + [x];
    assert all[|inputs|] == x;
    assert forall i :: 0 <= i < |inputs| ==> all[i] == inputs[i];
  }

  lemma PartlyMore(old_: map<string, int>, seen: set<string>, stalled: set<string>, now: int, n: string)
    requires stalled <= seen && n !in seen
    ensures var starts := (old_ - seen) + NewStarts(old_, stalled, now);
            && (old_ - (seen + {n})) + NewStarts(old_, stalled, now) == starts - {n}
            && (old_ - (seen + {n})) + NewStarts(old_, stalled + {n}, now)
               == (if n in starts then starts else starts[n := now])
  {
  }

  lemma WorstMore(starts: map<string, int>, stalled: set<string>, now: int, worst: int, n: string)
    requires IsWorst(starts, stalled, now, worst) && n !in stalled
    ensures IsWorst(starts - {n}, stalled, now, worst)
    ensures var starts' := if n in starts then starts else starts[n := now];
            IsWorst(starts', stalled + {n}, now, if worst < now - starts'[n] then now - starts'[n] else worst)
  {
    if 0 < worst {
      var m :| m in stalled && m in starts && worst == now - starts[m];
      assert m in starts - {n};
    }
  }

  lemma StalledAppend(inputs: seq<ProgressInput>, x: ProgressInput, gap: int)
    ensures Stalled(inputs + [x], gap) == Stalled(inputs, gap) + if gap < x.closed - x.validated then {x.node} else {}
  {
    var all := inputs + [x];
    assert all[|inputs|] == x;
    assert forall i :: 0 <= i < |inputs| ==> all[i] == inputs[i];
  }

  // ---------------------------------------------------------------------------------------------
  // Whole traces
  // ---------------------------------------------------------------------------------------------

  datatype Sample = Sample(now: int, inputs: seq<ProgressInput>)

  /** The memory before tick `i`. */
  ghost function Before(s: Settings, trace: seq<Sample>, i: nat): Memory
    requires i <= |trace|
  {
    if i == 0 then Memory(map[], false)
    else Step(s, Before(s, trace, i - 1), trace[i - 1].now, trace[i - 1].inputs)
  }

  ghost predicate EmitsAt(s: Settings, trace: seq<Sample>, i: nat)
    requires i < |trace|
  {
    Emits(s, Before(s, trace, i), trace[i].now, trace[i].inputs)
  }

  /** At tick `i` node `n` has closed more than the threshold past what it has validated. */
  ghost predicate StalledAt(s: Settings, trace: seq<Sample>, i: nat, n: string)
    requires i < |trace|
  {
    var inputs := trace[i].inputs;
    exists j :: 0 <= j < |inputs| && inputs[j].node == n && inputs[j].closed - inputs[j].validated > s.gap
  }

  lemma StalledSet(s: Settings, trace: seq<Sample>, i: nat)
    requires i < |trace|
    ensures forall n :: n in Stalled(trace[i].inputs, s.gap) <==> StalledAt(s, trace, i, n)
    ensures Stalled(trace[i].inputs, s.gap) == {} <==> !SomeStalledAt(s, trace, i)
  {
    var inputs := trace[i].inputs;
    forall n
      ensures n in Stalled(inputs, s.gap) <==> StalledAt(s, trace, i, n)
    {
    }
    if SomeStalledAt(s, trace, i) {
      var n :| StalledAt(s, trace, i, n);
      assert n in Stalled(inputs, s.gap);
    }
    if Stalled(inputs, s.gap) != {} {
      var n :| n in Stalled(inputs, s.gap);
      assert StalledAt(s, trace, i, n);
    }
  }

  ghost predicate SomeStalledAt(s: Settings, trace: seq<Sample>, i: nat)
    requires i < |trace|
  {
    exists n :: StalledAt(s, trace, i, n)
  }

  /** The first tick of the unbroken stretch of ticks up to `i` at which `n` is stalled. */
  ghost function Onset(s: Settings, trace: seq<Sample>, i: nat, n: string): (j: nat)
    requires i < |trace| && StalledAt(s, trace, i, n)
    ensures j <= i
    ensures forall k :: j <= k <= i ==> StalledAt(s, trace, k, n)
    ensures 0 < j ==> !StalledAt(s, trace, j - 1, n)
  {
    if i == 0 || !StalledAt(s, trace, i - 1, n) then i else Onset(s, trace, i - 1, n)
  }

  /** Node `n` has been stalled without a break for at least the sustain time. */
  ghost predicate SustainedAt(s: Settings, trace: seq<Sample>, i: nat, n: string)
    requires i < |trace|
  {
    StalledAt(s, trace, i, n) && s.sustain <= trace[i].now - trace[Onset(s, trace, i, n)].now
  }

  /** The oracle tracks exactly the nodes stalled at the last tick, each from its onset. */
  lemma {:induction false} StartsAreOnsets(s: Settings, trace: seq<Sample>, i: nat)
    requires i < |trace|
    ensures forall n :: n in Before(s, trace, i + 1).starts <==> StalledAt(s, trace, i, n)
    ensures forall n :: StalledAt(s, trace, i, n) ==>
              Before(s, trace, i + 1).starts[n] == trace[Onset(s, trace, i, n)].now
  {
    hide StalledAt;
    StalledSet(s, trace, i);
    if 0 < i {
      StartsAreOnsets(s, trace, i - 1);
    }
  }

  ghost predicate SomeSustained(s: Settings, trace: seq<Sample>, i: nat)
    requires i < |trace|
  {
    exists n :: SustainedAt(s, trace, i, n)
  }

  lemma OverdueIsSustained(s: Settings, trace: seq<Sample>, i: nat)
    requires i < |trace|
    ensures Overdue(s, Before(s, trace, i + 1).starts, trace[i].now) <==> SomeSustained(s, trace, i)
  {
    StartsAreOnsets(s, trace, i);
    var starts := Before(s, trace, i + 1).starts;
    if Overdue(s, starts, trace[i].now) {
      var n :| n in starts && s.sustain <= trace[i].now - starts[n];
      assert SustainedAt(s, trace, i, n);
    }
    if n :| SustainedAt(s, trace, i, n) {
      assert n in starts;
    }
  }

  ghost predicate StalledThrough(s: Settings, trace: seq<Sample>, j: nat, i: nat, n: string) {
    j <= i < |trace| && forall k :: j <= k <= i ==> StalledAt(s, trace, k, n)
  }

  /** Every finding has a witness: a node stalled at every tick of a stretch that spans at least
      the sustain time. */
  lemma FindingHasWitness(s: Settings, trace: seq<Sample>, i: nat)
    requires i < |trace| && EmitsAt(s, trace, i)
    ensures exists n, j: nat :: StalledThrough(s, trace, j, i, n) && s.sustain <= trace[i].now - trace[j].now
  {
    OverdueIsSustained(s, trace, i);
    var n :| SustainedAt(s, trace, i, n);
    assert StalledThrough(s, trace, Onset(s, trace, i, n), i, n);
  }

  ghost function Emissions(s: Settings, trace: seq<Sample>, lo: nat, hi: nat): nat
    requires lo <= hi <= |trace|
  {
    if lo == hi then 0 else Emissions(s, trace, lo, hi - 1) + if EmitsAt(s, trace, hi - 1) then 1 else 0
  }

  ghost predicate SustainedWithin(s: Settings, trace: seq<Sample>, lo: nat, hi: nat)
    requires lo <= hi <= |trace|
  {
    exists i :: lo <= i < hi && SomeSustained(s, trace, i)
  }

  lemma OneTickMore(s: Settings, trace: seq<Sample>, lo: nat, hi: nat)
    requires lo < hi <= |trace|
    ensures SustainedWithin(s, trace, lo, hi)
            <==> SustainedWithin(s, trace, lo, hi - 1) || SomeSustained(s, trace, hi - 1)
  {
  }

  lemma OpenStep(s: Settings, trace: seq<Sample>, i: nat)
    requires i < |trace| && SomeStalledAt(s, trace, i)
    ensures Before(s, trace, i + 1).open <==> Before(s, trace, i).open || SomeSustained(s, trace, i)
    ensures EmitsAt(s, trace, i) <==> !Before(s, trace, i).open && SomeSustained(s, trace, i)
  {
    StartsAreOnsets(s, trace, i);
    OverdueIsSustained(s, trace, i);
    var n :| StalledAt(s, trace, i, n);
    assert n in Before(s, trace, i + 1).starts;
  }

  /** From the first tick of an episode on, one finding is added if some node's stall is sustained
      and none otherwise, at the first tick where it is; the episode lasts until a tick at which no
      node at all is stalled. */
  lemma {:induction false} EpisodeEmitsOnce(s: Settings, trace: seq<Sample>, lo: nat, hi: nat)
    requires lo <= hi <= |trace|
    requires forall i :: lo <= i < hi ==> SomeStalledAt(s, trace, i)
    requires 0 < lo ==> !SomeStalledAt(s, trace, lo - 1)
    ensures Emissions(s, trace, lo, hi) == if SustainedWithin(s, trace, lo, hi) then 1 else 0
    ensures Before(s, trace, hi).open <==> SustainedWithin(s, trace, lo, hi)
    ensures forall i :: lo <= i < hi && EmitsAt(s, trace, i) ==> !SustainedWithin(s, trace, lo, i)
  {
    if lo == hi {
      if 0 < lo {
        NoStallNoFinding(s, trace, lo - 1);
      }
    } else {
      EpisodeEmitsOnce(s, trace, lo, hi - 1);
      OpenStep(s, trace, hi - 1);
      OneTickMore(s, trace, lo, hi);
    }
  }

  /** Outside episodes nothing is added. */
  lemma NoStallNoFinding(s: Settings, trace: seq<Sample>, i: nat)
    requires i < |trace| && !SomeStalledAt(s, trace, i)
    ensures !EmitsAt(s, trace, i) && Before(s, trace, i + 1) == Memory(map[], false)
  {
    StalledSet(s, trace, i);
    assert NewStarts(Before(s, trace, i).starts, {}, trace[i].now) == map[];
  }

  // ---------------------------------------------------------------------------------------------
  // The documented end of an episode
  // ---------------------------------------------------------------------------------------------

  /** Some node that was stalled at the last tick is in the snapshot and no longer stalled. */
  ghost predicate Recovers(s: Settings, m: Memory, inputs: seq<ProgressInput>) {
    exists n :: n in m.starts && n in NodesOf(inputs) && n !in Stalled(inputs, s.gap)
  }

  /** The documentation ends the episode once any node has recovered, and makes a new finding
      eligible; the code waits until none is stalled. */
  ghost function DocumentedStep(s: Settings, m: Memory, now: int, inputs: seq<ProgressInput>): Memory {
    Step(s, m.(open := m.open && !Recovers(s, m, inputs)), now, inputs)
  }

  ghost predicate DocumentedEmits(s: Settings, m: Memory, now: int, inputs: seq<ProgressInput>) {
    Emits(s, m.(open := m.open && !Recovers(s, m, inputs)), now, inputs)
  }

  ghost function DocumentedBefore(s: Settings, trace: seq<Sample>, i: nat): Memory
    requires i <= |trace|
  {
    if i == 0 then Memory(map[], false)
    else DocumentedStep(s, DocumentedBefore(s, trace, i - 1), trace[i - 1].now, trace[i - 1].inputs)
  }

  /** The two rules add the same findings along a trace. */
  ghost predicate EmitAlike(s: Settings, trace: seq<Sample>) {
    forall i: nat :: i < |trace| ==>
      (EmitsAt(s, trace, i) <==> DocumentedEmits(s, DocumentedBefore(s, trace, i), trace[i].now, trace[i].inputs))
  }

  /** A trace of a network of these nodes, in time order. */
  ghost predicate TraceOf(nodes: set<string>, trace: seq<Sample>) {
    && (forall i :: 0 <= i < |trace| ==> DistinctNodes(trace[i].inputs) && NodesOf(trace[i].inputs) <= nodes)
    && (forall i, j :: 0 <= i < j < |trace| ==> trace[i].now <= trace[j].now)
  }

  lemma {:induction false} OneNodeAlike(s: Settings, nodes: set<string>, trace: seq<Sample>, i: nat)
    requires |nodes| <= 1 && TraceOf(nodes, trace) && i <= |trace|
    ensures DocumentedBefore(s, trace, i) == Before(s, trace, i)
    ensures i < |trace| ==>
              (EmitsAt(s, trace, i) <==> DocumentedEmits(s, DocumentedBefore(s, trace, i), trace[i].now, trace[i].inputs))
  {
    hide Step, Emits, DocumentedStep, DocumentedEmits, DistinctNodes, NodesOf;
    if 0 < i {
      OneNodeAlike(s, nodes, trace, i - 1);
      LoneStep(s, nodes, Before(s, trace, i - 1), trace[i - 1]);
    }
    if i < |trace| {
      LoneStep(s, nodes, Before(s, trace, i), trace[i]);
    }
  }

  lemma StalledAreNodes(inputs: seq<ProgressInput>, gap: int)
    ensures Stalled(inputs, gap) <= NodesOf(inputs)
  {
  }

  /** A lone node that recovers leaves none stalled, so both rules close the episode. */
  lemma LoneStep(s: Settings, nodes: set<string>, m: Memory, x: Sample)
    requires |nodes| <= 1 && NodesOf(x.inputs) <= nodes
    ensures DocumentedStep(s, m, x.now, x.inputs) == Step(s, m, x.now, x.inputs)
    ensures DocumentedEmits(s, m, x.now, x.inputs) <==> Emits(s, m, x.now, x.inputs)
  {
    if Recovers(s, m, x.inputs) {
      var n :| n in m.starts && n in NodesOf(x.inputs) && n !in Stalled(x.inputs, s.gap);
      StalledAreNodes(x.inputs, s.gap);
      OnlyMember(nodes, n);
      assert Stalled(x.inputs, s.gap) == {};
      assert NewStarts(m.starts, {}, x.now) == map[];
    }
  }

  lemma OnlyMember(nodes: set<string>, n: string)
    requires |nodes| <= 1 && n in nodes
    ensures nodes == {n}
  {
    assert |nodes - {n}| == 0;
  }

  ghost function Behind(s: Settings, n: string): ProgressInput {
    ProgressInput(n, s.gap + 1, 0)
  }

  ghost function Level(n: string): ProgressInput {
    ProgressInput(n, 0, 0)
  }

  lemma TwoInputs(s: Settings, x: ProgressInput, y: ProgressInput)
    requires x.node != y.node
    ensures DistinctNodes([x, y]) && NodesOf([x, y]) == {x.node, y.node}
    ensures Stalled([x, y], s.gap) == (if s.gap < x.closed - x.validated then {x.node} else {})
                                      + (if s.gap < y.closed - y.validated then {y.node} else {})
  {
    var inputs := [x, y];
    assert inputs[0] == x && inputs[1] == y;
  }

  /** Both stall at time 0, and are overdue after the sustain time. */
  lemma BothStall(s: Settings, a: string, b: string)
    requires 0 < s.sustain && a != b
    ensures var both, starts := [Behind(s, a), Behind(s, b)], map[a := 0, b := 0];
            && DistinctNodes(both) && NodesOf(both) == {a, b}
            && Step(s, Memory(map[], false), 0, both) == Memory(starts, false)
            && Step(s, Memory(starts, false), s.sustain, both) == Memory(starts, true)
            && !Recovers(s, Memory(map[], false), both) && !Recovers(s, Memory(starts, false), both)
  {
    TwoInputs(s, Behind(s, a), Behind(s, b));
    var starts := map[a := 0, b := 0];
    assert NewStarts(map[], {a, b}, 0) == starts == NewStarts(starts, {a, b}, s.sustain);
    assert a in starts && starts[a] == 0;
  }

  /** Then `a` recovers and `b` does not. */
  lemma OneRecovers(s: Settings, a: string, b: string, open: bool)
    requires 0 < s.sustain && 0 <= s.gap && a != b
    ensures var one, m := [Level(a), Behind(s, b)], Memory(map[a := 0, b := 0], open);
            && DistinctNodes(one) && NodesOf(one) == {a, b}
            && Step(s, m, s.sustain, one) == Memory(map[b := 0], true) && Recovers(s, m, one)
  {
    TwoInputs(s, Level(a), Behind(s, b));
    assert Stalled([Level(a), Behind(s, b)], s.gap) == {b};
    var starts := map[a := 0, b := 0];
    assert NewStarts(starts, {b}, s.sustain) == map[b := 0];
    assert b in map[b := 0] && Overdue(s, map[b := 0], s.sustain);
    assert a in starts;
  }

  /** Two nodes stall for the sustain time, then one recovers: the documentation has a second finding
      for the other, the code does not. */
  lemma SecondFindingDocumented(s: Settings, a: string, b: string) returns (trace: seq<Sample>)
    requires 0 < s.sustain && 0 <= s.gap && a != b
    ensures TraceOf({a, b}, trace) && |trace| == 3
    ensures EmitsAt(s, trace, 1) && !EmitsAt(s, trace, 2)
    ensures DocumentedEmits(s, DocumentedBefore(s, trace, 2), trace[2].now, trace[2].inputs)
    ensures !EmitAlike(s, trace)
  {
    hide Step, Recovers, NodesOf, DistinctNodes;
    var both, one := [Behind(s, a), Behind(s, b)], [Level(a), Behind(s, b)];
    trace := [Sample(0, both), Sample(s.sustain, both), Sample(s.sustain, one)];
    BothStall(s, a, b);
    OneRecovers(s, a, b, true);
    OneRecovers(s, a, b, false);
    assert Before(s, trace, 0) == DocumentedBefore(s, trace, 0) == Memory(map[], false);
    assert Before(s, trace, 1) == DocumentedBefore(s, trace, 1) == Memory(map[a := 0, b := 0], false);
    assert Before(s, trace, 2) == DocumentedBefore(s, trace, 2) == Memory(map[a := 0, b := 0], true);
  }

  /** The type comment and the code add the same findings on every trace of a network exactly when
      the network has at most one node. */
  lemma DocumentedEpisodes(s: Settings, nodes: set<string>)
    requires 0 < s.sustain && 0 <= s.gap
    ensures |nodes| <= 1 <==> forall trace: seq<Sample> :: TraceOf(nodes, trace) ==> EmitAlike(s, trace)
  {
    hide Before, DocumentedBefore, Emits, DocumentedEmits, DistinctNodes, NodesOf;
    if |nodes| <= 1 {
      forall trace: seq<Sample> | TraceOf(nodes, trace)
        ensures EmitAlike(s, trace)
      {
        forall i: nat | i < |trace|
          ensures EmitsAt(s, trace, i) <==>
                    DocumentedEmits(s, DocumentedBefore(s, trace, i), trace[i].now, trace[i].inputs)
        {
          OneNodeAlike(s, nodes, trace, i);
        }
      }
    } else {
      var a :| a in nodes;
      assert |nodes - {a}| == |nodes| - 1;
      var b :| b in nodes - {a};
      var trace := SecondFindingDocumented(s, a, b);
      assert TraceOf(nodes, trace);
    }
  }
}
