/** The liveness monitor of the soak: consensus stalls and lost peers, at most one event a tick. */
module Liveness {
  import opened Wrappers

  /** One node's sample; a failed query leaves `validated` at 0. */
  datatype Snapshot = Snapshot(validated: int, peers: int, failed: bool)

  datatype Kind = ConsensusStall | PeerDrop

  datatype Settings = Settings(stallThreshold: int, cooldown: int, minPeers: int) {
    predicate Valid() {
      0 < stallThreshold && 0 < cooldown
    }
  }

  /** Times are nanoseconds; a kind that never fired has no last time. */
  datatype Memory = Memory(highWater: int, highWaterTime: int, lastStall: Option<int>, lastPeer: Option<int>)

  const SECOND: int := 1_000_000_000

  function Defaults(stallThreshold: int, cooldown: int, minPeers: int): (s: Settings)
    ensures s.Valid() && s.minPeers == minPeers
    ensures s.stallThreshold == if stallThreshold <= 0 then 60_000_000_000 else stallThreshold
    ensures s.cooldown == if cooldown <= 0 then 30_000_000_000 else cooldown
  {
    Settings(if stallThreshold <= 0 then 60 * SECOND else stallThreshold,
             if cooldown <= 0 then 30 * SECOND else cooldown, minPeers)
  }

  /** The highest ledger any node reports, at least 0. */
  ghost predicate IsHighest(snapshots: seq<Snapshot>, m: int) {
    && (forall i :: 0 <= i < |snapshots| ==> snapshots[i].validated <= m)
    && 0 <= m && (0 < m ==> exists i :: 0 <= i < |snapshots| && snapshots[i].validated == m)
  }

  ghost function Highest(snapshots: seq<Snapshot>): int {
    if snapshots == [] then 0
    else
      var n := |snapshots| - 1;
      var front := Highest(snapshots[..n]);
      if front < snapshots[n].validated then snapshots[n].validated else front
  }

  lemma {:induction false} HighestIsHighest(snapshots: seq<Snapshot>)
    ensures IsHighest(snapshots, Highest(snapshots))
  {
    if snapshots != [] {
      var n := |snapshots| - 1;
      HighestIsHighest(snapshots[..n]);
      assert forall i :: 0 <= i < n ==> snapshots[..n][i] == snapshots[i];
    }
  }

  ghost predicate Short(snapshots: seq<Snapshot>, minPeers: int) {
    exists i :: 0 <= i < |snapshots| && !snapshots[i].failed && snapshots[i].peers < minPeers
  }

  predicate Cooled(last: Option<int>, now: int, cooldown: int) {
    last.None? || cooldown <= now - last.value
  }

  /** A tick: the memory it leaves, and the event it raises if any. */
  ghost function Step(s: Settings, m: Memory, now: int, snapshots: seq<Snapshot>): (Memory, Option<Kind>) {
    var highest := Highest(snapshots);
    var m1 := if m.highWater < highest then m.(highWater := highest, highWaterTime := now) else m;
    if s.stallThreshold <= now - m1.highWaterTime && Cooled(m.lastStall, now, s.cooldown) then
      (m1.(lastStall := Some(now)), Some(ConsensusStall))
    else if 0 < s.minPeers && Short(snapshots, s.minPeers) && Cooled(m.lastPeer, now, s.cooldown) then
      (m1.(lastPeer := Some(now)), Some(PeerDrop))
    else (m1, None)
  }

  class Monitor {
    const settings: Settings
    var memory: Memory
    var events: seq<Kind>

    constructor (settings: Settings, now: int)
      ensures this.settings == settings && memory == Memory(0, now, None, None) && events == []
    {
      this.settings := settings;
      memory := Memory(0, now, None, None);
      events := [];
    }

    method Tick(now: int, snapshots: seq<Snapshot>)
      requires settings.Valid()
      modifies this
      ensures var (m, e) := Step(settings, old(memory), now, snapshots);
              memory == m && events == old(events) + if e.Some? then [e.value] else []
    {
      var maxSeq := 0;
      for i := 0 to |snapshots|
        invariant IsHighest(snapshots[..i], maxSeq)
        invariant memory == old(memory) && events == old(events)
      {
        assert snapshots[..i + 1] == snapshots[..i] + [snapshots[i]];
        if maxSeq < snapshots[i].validated {
          maxSeq := snapshots[i].validated;
          assert snapshots[..i + 1][i].validated == maxSeq;
        } else if 0 < maxSeq {
          var j :| 0 <= j < i && snapshots[..i][j].validated == maxSeq;
          assert snapshots[..i + 1][j].validated == maxSeq;
        }
      }
      assert snapshots[..|snapshots|] == snapshots;
      HighestIsHighest(snapshots);
      HighestUnique(snapshots, maxSeq, Highest(snapshots));
      var stallFor := 0;
      if memory.highWater < maxSeq {
        memory := memory.(highWater := maxSeq, highWaterTime := now);
      } else {
        stallFor := now - memory.highWaterTime;
      }
      if maxSeq <= memory.highWater {
        if settings.stallThreshold <= stallFor && Cooled(memory.lastStall, now, settings.cooldown) {
          memory := memory.(lastStall := Some(now));
          events := events + [ConsensusStall];
          return;
        }
      }
      if 0 < settings.minPeers {
        var bad := CountBad(snapshots, settings.minPeers);
        if 0 < bad && Cooled(memory.lastPeer, now, settings.cooldown) {
          memory := memory.(lastPeer := Some(now));
          events := events + [PeerDrop];
        }
      }
    }
  }

  method CountBad(snapshots: seq<Snapshot>, minPeers: int) returns (bad: nat)
    ensures 0 < bad <==> Short(snapshots, minPeers)
  {
    bad := 0;
    for i := 0 to |snapshots|
      invariant 0 < bad <==> exists j :: 0 <= j < i && !snapshots[j].failed && snapshots[j].peers < minPeers
    {
      if !snapshots[i].failed && snapshots[i].peers < minPeers {
        bad := bad + 1;
      }
    }
  }

  lemma HighestUnique(snapshots: seq<Snapshot>, a: int, b: int)
    requires IsHighest(snapshots, a) && IsHighest(snapshots, b)
    ensures a == b
  {
  }

  // ---------------------------------------------------------------------------------------------
  // Whole traces
  // ---------------------------------------------------------------------------------------------

  datatype Sample = Sample(now: int, snapshots: seq<Snapshot>)

  datatype Trace = Trace(settings: Settings, start: int, ticks: seq<Sample>)

  /** Time does not go backwards. */
  ghost predicate Ordered(t: Trace) {
    && (forall i :: 0 <= i < |t.ticks| ==> t.start <= t.ticks[i].now)
    && (forall i, j :: 0 <= i <= j < |t.ticks| ==> t.ticks[i].now <= t.ticks[j].now)
  }

  ghost function Before(t: Trace, i: nat): Memory
    requires i <= |t.ticks|
  {
    if i == 0 then Memory(0, t.start, None, None)
    else Step(t.settings, Before(t, i - 1), t.ticks[i - 1].now, t.ticks[i - 1].snapshots).0
  }

  ghost function EventAt(t: Trace, i: nat): Option<Kind>
    requires i < |t.ticks|
  {
    Step(t.settings, Before(t, i), t.ticks[i].now, t.ticks[i].snapshots).1
  }

  /** Tick `i` shows a ledger higher than any before. */
  ghost predicate RaisesAt(t: Trace, i: nat)
    requires i < |t.ticks|
  {
    Before(t, i).highWater < Highest(t.ticks[i].snapshots)
  }

  /** The high-water mark is the highest ledger any sample of any tick reported. */
  lemma {:induction false} HighWaterIsHighest(t: Trace, n: nat)
    requires n <= |t.ticks|
    ensures forall i, j :: 0 <= i < n && 0 <= j < |t.ticks[i].snapshots| ==>
              t.ticks[i].snapshots[j].validated <= Before(t, n).highWater
    ensures 0 <= Before(t, n).highWater
    ensures 0 < Before(t, n).highWater ==> SampledAt(t, n, Before(t, n).highWater)
    ensures forall i :: 0 <= i <= n ==> Before(t, i).highWater <= Before(t, n).highWater
  {
    if 0 < n {
      HighWaterIsHighest(t, n - 1);
      HighestIsHighest(t.ticks[n - 1].snapshots);
      var w := Before(t, n).highWater;
      if RaisesAt(t, n - 1) {
        var j :| 0 <= j < |t.ticks[n - 1].snapshots| && t.ticks[n - 1].snapshots[j].validated == w;
        assert SampledAt(t, n, w);
      } else if 0 < w {
        assert SampledAt(t, n - 1, w);
        var i, j :| 0 <= i < n - 1 && 0 <= j < |t.ticks[i].snapshots| && t.ticks[i].snapshots[j].validated == w;
        assert SampledAt(t, n, w);
      }
    }
  }

  ghost predicate SampledAt(t: Trace, n: nat, w: int)
    requires n <= |t.ticks|
  {
    exists i, j :: 0 <= i < n && 0 <= j < |t.ticks[i].snapshots| && t.ticks[i].snapshots[j].validated == w
  }

  /** The last time among `times` at which the mark is set. */
  ghost predicate IsLast(times: seq<int>, marks: seq<bool>, last: Option<int>)
    requires |times| == |marks|
  {
    && (forall i :: 0 <= i < |marks| && marks[i] ==> last.Some? && times[i] <= last.value)
    && (last.Some? ==> exists i :: 0 <= i < |marks| && marks[i] && times[i] == last.value)
  }

  lemma IsLastAppend(times: seq<int>, marks: seq<bool>, last: Option<int>, time: int, mark: bool)
    requires |times| == |marks| && IsLast(times, marks, last)
    requires forall i :: 0 <= i < |times| ==> times[i] <= time
    ensures IsLast(times + [time], marks + [mark], if mark then Some(time) else last)
  {
    var times', marks' := times + [time], marks + [mark];
    if mark {
      assert marks'[|marks|] && times'[|times|] == time;
    } else if last.Some? {
      var i :| 0 <= i < |marks| && marks[i] && times[i] == last.value;
      assert marks'[i] && times'[i] == last.value;
    }
  }

  /** Every marked time is at least `d` before `now`. */
  ghost predicate AllBefore(times: seq<int>, marks: seq<bool>, now: int, d: int)
    requires |times| == |marks|
  {
    forall i :: 0 <= i < |marks| && marks[i] ==> d <= now - times[i]
  }

  lemma LastDecides(times: seq<int>, marks: seq<bool>, last: Option<int>, now: int, d: int)
    requires |times| == |marks| && IsLast(times, marks, last)
    ensures AllBefore(times, marks, now, d) <==> Cooled(last, now, d)
  {
  }

  ghost function Times(t: Trace, n: nat): (r: seq<int>)
    requires n <= |t.ticks|
    ensures |r| == n && forall i :: 0 <= i < n ==> r[i] == t.ticks[i].now
  {
    seq(n, i requires 0 <= i < n => t.ticks[i].now)
  }

  /** Which of the first `n` ticks raised an event of kind `k`, and which raised the mark. */
  ghost function Fired(t: Trace, n: nat, k: Kind): (r: seq<bool>)
    requires n <= |t.ticks|
    ensures |r| == n
  {
    if n == 0 then [] else Fired(t, n - 1, k) + [EventAt(t, n - 1) == Some(k)]
  }

  ghost function Raised(t: Trace, n: nat): (r: seq<bool>)
    requires n <= |t.ticks|
    ensures |r| == n
  {
    if n == 0 then [] else Raised(t, n - 1) + [RaisesAt(t, n - 1)]
  }

  lemma {:induction false} FiredAt(t: Trace, n: nat, k: Kind, i: nat)
    requires i < n <= |t.ticks|
    ensures Fired(t, n, k)[i] <==> EventAt(t, i) == Some(k)
  {
    if i < n - 1 {
      FiredAt(t, n - 1, k, i);
    }
  }

  lemma {:induction false} RaisedAt(t: Trace, n: nat, i: nat)
    requires i < n <= |t.ticks|
    ensures Raised(t, n)[i] <==> RaisesAt(t, i)
  {
    if i < n - 1 {
      RaisedAt(t, n - 1, i);
    }
  }

  ghost function LastRaise(t: Trace, n: nat): Option<int>
    requires n <= |t.ticks|
  {
    if n == 0 then None
    else if RaisesAt(t, n - 1) then Some(t.ticks[n - 1].now) else LastRaise(t, n - 1)
  }

  /** A tick raises the mark exactly when it samples a ledger above 0 and every ledger sampled before. */
  lemma RaiseIsNewHighest(t: Trace, n: nat)
    requires n < |t.ticks|
    ensures RaisesAt(t, n) <==>
              exists j :: 0 <= j < |t.ticks[n].snapshots| && 0 < t.ticks[n].snapshots[j].validated
                && forall i, k :: 0 <= i < n && 0 <= k < |t.ticks[i].snapshots| ==>
                     t.ticks[i].snapshots[k].validated < t.ticks[n].snapshots[j].validated
  {
    var now := t.ticks[n].snapshots;
    HighWaterIsHighest(t, n);
    HighestIsHighest(now);
    var w := Before(t, n).highWater;
    if RaisesAt(t, n) {
      var j :| 0 <= j < |now| && now[j].validated == Highest(now);
      assert forall i, k :: 0 <= i < n && 0 <= k < |t.ticks[i].snapshots| ==>
               t.ticks[i].snapshots[k].validated < now[j].validated;
    }
    if j :| 0 <= j < |now| && 0 < now[j].validated
            && forall i, k :: 0 <= i < n && 0 <= k < |t.ticks[i].snapshots| ==>
                 t.ticks[i].snapshots[k].validated < now[j].validated {
      if 0 < w {
        assert SampledAt(t, n, w);
        var i, k :| 0 <= i < n && 0 <= k < |t.ticks[i].snapshots| && t.ticks[i].snapshots[k].validated == w;
        assert w < now[j].validated;
      }
    }
  }

  lemma NextTime(t: Trace, n: nat)
    requires n < |t.ticks|
    ensures Before(t, n + 1).highWaterTime == if RaisesAt(t, n) then t.ticks[n].now else Before(t, n).highWaterTime
  {
  }

  lemma NoTicks(t: Trace)
    ensures Before(t, 0).highWaterTime == t.start
  {
  }

  /** The high-water time is that of the last tick that raised the mark, or the start. */
  lemma {:induction false} HighWaterTime(t: Trace, n: nat)
    requires Ordered(t) && n <= |t.ticks|
    ensures Before(t, n).highWaterTime == if LastRaise(t, n).Some? then LastRaise(t, n).value else t.start
    ensures IsLast(Times(t, n), Raised(t, n), LastRaise(t, n))
  {
    hide EventAt, Before, RaisesAt, Step;
    if n == 0 {
      NoTicks(t);
    } else {
      HighWaterTime(t, n - 1);
      NextTime(t, n - 1);
      IsLastAppend(Times(t, n - 1), Raised(t, n - 1), LastRaise(t, n - 1), t.ticks[n - 1].now, RaisesAt(t, n - 1));
      assert Times(t, n) == Times(t, n - 1) + [t.ticks[n - 1].now];
    }
  }

  ghost predicate NoRaiseFor(t: Trace, n: nat)
    requires n < |t.ticks|
  {
    && t.settings.stallThreshold <= t.ticks[n].now - t.start
    && forall i :: 0 <= i <= n && RaisesAt(t, i) ==> t.settings.stallThreshold <= t.ticks[n].now - t.ticks[i].now
  }

  lemma NoProgressFor(t: Trace, n: nat)
    requires Ordered(t) && n < |t.ticks|
    ensures NoRaiseFor(t, n) <==> t.settings.stallThreshold <= t.ticks[n].now - Before(t, n + 1).highWaterTime
  {
    HighWaterTime(t, n + 1);
    LastDecides(Times(t, n + 1), Raised(t, n + 1), LastRaise(t, n + 1), t.ticks[n].now, t.settings.stallThreshold);
    RaisesBefore(t, n);
    LastRaiseAfterStart(t, n + 1);
  }

  lemma RaisesBefore(t: Trace, n: nat)
    requires n < |t.ticks|
    ensures AllBefore(Times(t, n + 1), Raised(t, n + 1), t.ticks[n].now, t.settings.stallThreshold)
            <==> forall i :: 0 <= i <= n && RaisesAt(t, i) ==> t.settings.stallThreshold <= t.ticks[n].now - t.ticks[i].now
  {
    forall i | 0 <= i <= n
      ensures Raised(t, n + 1)[i] <==> RaisesAt(t, i)
    {
      RaisedAt(t, n + 1, i);
    }
  }

  lemma {:induction false} LastRaiseAfterStart(t: Trace, n: nat)
    requires Ordered(t) && n <= |t.ticks|
    ensures LastRaise(t, n).Some? ==> t.start <= LastRaise(t, n).value
  {
    if 0 < n {
      LastRaiseAfterStart(t, n - 1);
    }
  }

  /** A stall is reported only when for the whole threshold no sample raised the mark. */
  lemma StallMeansNoProgress(t: Trace, n: nat)
    requires Ordered(t) && t.settings.Valid() && n < |t.ticks| && EventAt(t, n) == Some(ConsensusStall)
    ensures t.settings.stallThreshold <= t.ticks[n].now - t.start
    ensures forall i :: 0 <= i <= n && RaisesAt(t, i) ==> t.settings.stallThreshold <= t.ticks[n].now - t.ticks[i].now
  {
    NoProgressFor(t, n);
  }

  function LastOf(m: Memory, k: Kind): Option<int> {
    if k.ConsensusStall? then m.lastStall else m.lastPeer
  }

  lemma NextLast(t: Trace, n: nat, k: Kind)
    requires n < |t.ticks|
    ensures LastOf(Before(t, n + 1), k) ==
              if EventAt(t, n) == Some(k) then Some(t.ticks[n].now) else LastOf(Before(t, n), k)
  {
  }

  lemma NoEvents(t: Trace, k: Kind)
    ensures LastOf(Before(t, 0), k) == None
  {
  }

  /** The last time kept for a kind is that of its last event. */
  lemma {:induction false} LastTime(t: Trace, n: nat, k: Kind)
    requires Ordered(t) && n <= |t.ticks|
    ensures IsLast(Times(t, n), Fired(t, n, k), LastOf(Before(t, n), k))
  {
    hide EventAt, Before, Step;
    if n == 0 {
      NoEvents(t, k);
    } else {
      LastTime(t, n - 1, k);
      NextLast(t, n - 1, k);
      IsLastAppend(Times(t, n - 1), Fired(t, n - 1, k), LastOf(Before(t, n - 1), k), t.ticks[n - 1].now,
                   EventAt(t, n - 1) == Some(k));
      assert Times(t, n) == Times(t, n - 1) + [t.ticks[n - 1].now];
    }
  }

  /** Two events of one kind are at least the cooldown apart. */
  lemma EventsKeepApart(t: Trace, i: nat, j: nat, k: Kind)
    requires Ordered(t) && i < j < |t.ticks| && EventAt(t, i) == EventAt(t, j) == Some(k)
    ensures t.settings.cooldown <= t.ticks[j].now - t.ticks[i].now
  {
    CooledIsQuiet(t, j, k);
  }

  ghost predicate QuietSince(t: Trace, n: nat, k: Kind)
    requires n < |t.ticks|
  {
    forall i :: 0 <= i < n && EventAt(t, i) == Some(k) ==> t.settings.cooldown <= t.ticks[n].now - t.ticks[i].now
  }

  ghost predicate StallDue(t: Trace, n: nat)
    requires n < |t.ticks|
  {
    NoRaiseFor(t, n) && QuietSince(t, n, ConsensusStall)
  }

  /** What a tick reports is decided by the samples: a stall exactly when it is due, and lost peers
      exactly when some node that answered has too few, the cooldown is over, and no stall is due. */
  lemma DueEventsFire(t: Trace, n: nat)
    requires Ordered(t) && t.settings.Valid() && n < |t.ticks|
    ensures EventAt(t, n) == Some(ConsensusStall) <==> StallDue(t, n)
    ensures EventAt(t, n) == Some(PeerDrop) <==>
              && 0 < t.settings.minPeers
              && (exists j :: 0 <= j < |t.ticks[n].snapshots| && !t.ticks[n].snapshots[j].failed
                              && t.ticks[n].snapshots[j].peers < t.settings.minPeers)
              && QuietSince(t, n, PeerDrop) && !StallDue(t, n)
  {
    CooledIsQuiet(t, n, ConsensusStall);
    CooledIsQuiet(t, n, PeerDrop);
    NoProgressFor(t, n);
  }

  lemma CooledIsQuiet(t: Trace, n: nat, k: Kind)
    requires Ordered(t) && n < |t.ticks|
    ensures Cooled(LastOf(Before(t, n), k), t.ticks[n].now, t.settings.cooldown) <==> QuietSince(t, n, k)
  {
    LastTime(t, n, k);
    LastDecides(Times(t, n), Fired(t, n, k), LastOf(Before(t, n), k), t.ticks[n].now, t.settings.cooldown);
    forall i | 0 <= i < n
      ensures Fired(t, n, k)[i] <==> EventAt(t, i) == Some(k)
    {
      FiredAt(t, n, k, i);
    }
  }

  // ---------------------------------------------------------------------------------------------
  // The documented debounce
  // ---------------------------------------------------------------------------------------------

  /** The documentation suppresses a repeated stall until the cooldown elapses or the mark is
      raised, whichever comes first; the code waits for the cooldown. */
  ghost predicate DocumentedStallDue(t: Trace, n: nat)
    requires n < |t.ticks|
  {
    && NoRaiseFor(t, n)
    && forall i :: 0 <= i < n && EventAt(t, i) == Some(ConsensusStall) ==>
         t.settings.cooldown <= t.ticks[n].now - t.ticks[i].now || RaisedBetween(t, i, n)
  }

  ghost predicate RaisedBetween(t: Trace, i: nat, n: nat)
    requires n < |t.ticks|
  {
    exists j :: i < j <= n && RaisesAt(t, j)
  }

  /** Code and documentation agree on every trace of a monitor exactly when its stall threshold is
      at least its cooldown. */
  lemma DocumentedDebounce(s: Settings)
    requires s.Valid()
    ensures s.cooldown <= s.stallThreshold <==>
              forall t: Trace, n: nat :: t.settings == s && Ordered(t) && n < |t.ticks| ==>
                (EventAt(t, n) == Some(ConsensusStall) <==> DocumentedStallDue(t, n))
  {
    if s.cooldown <= s.stallThreshold {
      forall t: Trace, n: nat | t.settings == s && Ordered(t) && n < |t.ticks|
        ensures EventAt(t, n) == Some(ConsensusStall) <==> DocumentedStallDue(t, n)
      {
        LongThresholdAgrees(t, n);
      }
    } else {
      var t := EarlyRepeat(s);
    }
  }

  lemma LongThresholdAgrees(t: Trace, n: nat)
    requires t.settings.Valid() && t.settings.cooldown <= t.settings.stallThreshold && Ordered(t) && n < |t.ticks|
    ensures EventAt(t, n) == Some(ConsensusStall) <==> DocumentedStallDue(t, n)
  {
    DueEventsFire(t, n);
    if DocumentedStallDue(t, n) {
      forall i | 0 <= i < n && EventAt(t, i) == Some(ConsensusStall)
        ensures t.settings.cooldown <= t.ticks[n].now - t.ticks[i].now
      {
        if RaisedBetween(t, i, n) {
          var j :| i < j <= n && RaisesAt(t, j);
          assert t.ticks[i].now <= t.ticks[j].now;
        }
      }
    }
  }

  /** With a shorter threshold: one healthy node stalls, advances, and stalls again inside the
      cooldown. */
  lemma EarlyRepeat(s: Settings) returns (t: Trace)
    requires s.Valid() && s.stallThreshold < s.cooldown
    ensures t.settings == s && Ordered(t) && |t.ticks| == 3
    ensures forall i :: 0 <= i < 3 ==> |t.ticks[i].snapshots| == 1 && !t.ticks[i].snapshots[0].failed
    ensures DocumentedStallDue(t, 2) && EventAt(t, 2) != Some(ConsensusStall)
  {
    var d := s.stallThreshold;
    var zero, one := [Snapshot(0, s.minPeers, false)], [Snapshot(1, s.minPeers, false)];
    t := Trace(s, 0, [Sample(d, zero), Sample(d, one), Sample(2 * d, one)]);
    assert zero[0].validated == 0 && one[0].validated == 1;
    assert Highest([]) == 0 && Highest(zero) == 0 && Highest(one) == 1;
    assert Before(t, 1) == Memory(0, 0, Some(d), None) && EventAt(t, 0) == Some(ConsensusStall);
    assert Before(t, 2).highWater == 1 && Before(t, 2).highWaterTime == d && Before(t, 2).lastStall == Some(d);
    assert RaisesAt(t, 1) && !RaisesAt(t, 2) && !RaisesAt(t, 0);
    assert EventAt(t, 1) != Some(ConsensusStall);
  }
}
