/** Expansion of a recurring chaos entry into the concrete entries of a schedule. */
module Recurring {
  datatype Result<T> = Ok(value: T) | Err

  /** The fields that expansion does not look at (interface, feature) travel in `rest`. */
  datatype RawEntry = RawEntry(step: int, recoverAfter: int, kind: string,
                               container: string, from: string, to: string, target: string,
                               delayMs: int, delayMsMin: int, delayMsMax: int, rest: string) {
    /** The four fields a wildcard may stand in, in the order they are resolved. */
    function Places(): (s: seq<string>)
      ensures |s| == 4
    {
      [container, from, to, target]
    }

    function WithPlaces(places: seq<string>): RawEntry
      requires |places| == 4
    {
      this.(container := places[0], from := places[1], to := places[2], target := places[3])
    }
  }

  datatype Spec = Spec(every: int, startStep: int, count: int, untilStep: int, jitter: int, event: RawEntry) {
    predicate Rejected() {
      every <= 0 || (count <= 0 && untilStep <= 0) || event.kind == ""
    }

    function Base(i: nat): int {
      startStep + i * every
    }

    predicate DrawsDelay() {
      event.kind == "latency" && event.delayMs == 0 &&
      0 < event.delayMsMin <= event.delayMsMax
    }
  }

  /** A generator of random numbers: call number k draws from draws(k). */
  class Rng {
    const draws: nat -> nat
    var used: nat

    constructor (draws: nat -> nat)
      ensures this.draws == draws && used == 0
    {
      this.draws := draws;
      used := 0;
    }

    method Intn(n: int) returns (r: int)
      requires 0 < n
      modifies this
      ensures r == draws(old(used)) % n && 0 <= r < n
      ensures used == old(used) + 1
    {
      r := draws(used) % n;
      used := used + 1;
    }
  }

  // ---------------------------------------------------------------------------------------------
  // Wildcards
  // ---------------------------------------------------------------------------------------------

  predicate Wild(place: string) {
    '*' in place
  }

  /** The nodes that start with the pattern's prefix, in order; only a final star counts. */
  function Matches(pattern: string, nodes: seq<string>): seq<string> {
    if nodes == [] then []
    else
      var n := nodes[|nodes| - 1];
      Matches(pattern, nodes[..|nodes| - 1]) + if Fits(pattern, n) then [n] else []
  }

  predicate Fits(pattern: string, node: string) {
    pattern != [] && pattern[|pattern| - 1] == '*' && pattern[..|pattern| - 1] <= node
  }

  method MatchNodes(pattern: string, nodes: seq<string>) returns (out: seq<string>)
    ensures out == Matches(pattern, nodes)
  {
    if pattern == [] || pattern[|pattern| - 1] != '*' {
      NothingFits(pattern, nodes);
      return [];
    }
    var prefix := pattern[..|pattern| - 1];
    out := [];
    for i := 0 to |nodes|
      invariant out == Matches(pattern, nodes[..i])
    {
      assert nodes[..i + 1][..i] == nodes[..i];
      if prefix <= nodes[i] {
        out := out + [nodes[i]];
      }
    }
    assert nodes[..|nodes|] == nodes;
  }

  lemma {:induction false} NothingFits(pattern: string, nodes: seq<string>)
    requires pattern == [] || pattern[|pattern| - 1] != '*'
    ensures Matches(pattern, nodes) == []
  {
    if nodes != [] {
      NothingFits(pattern, nodes[..|nodes| - 1]);
    }
  }

  /** The matches are exactly the listed nodes that fit. */
  lemma {:induction false} MatchesAreNodes(pattern: string, nodes: seq<string>, n: string)
    ensures n in Matches(pattern, nodes) <==>
              n in nodes && pattern != [] && pattern[|pattern| - 1] == '*' && pattern[..|pattern| - 1] <= n
  {
    if nodes != [] {
      var front := nodes[..|nodes| - 1];
      MatchesAreNodes(pattern, front, n);
      assert nodes == front + [nodes[|nodes| - 1]];
    }
  }

  predicate Resolvable(place: string, nodes: seq<string>) {
    Wild(place) ==> Matches(place, nodes) != []
  }

  ghost predicate AllResolvable(places: seq<string>, nodes: seq<string>) {
    forall p :: 0 <= p < |places| ==> Resolvable(places[p], nodes)
  }

  /** How many of the places are wildcards: the draws made to resolve them. */
  ghost function Wilds(places: seq<string>): nat {
    if places == [] then 0
    else Wilds(places[..|places| - 1]) + if Wild(places[|places| - 1]) then 1 else 0
  }

  ghost function Chosen(place: string, nodes: seq<string>, draw: nat): string {
    if Wild(place) && Matches(place, nodes) != [] then Matches(place, nodes)[draw % |Matches(place, nodes)|] else place
  }

  /** The places after resolution, with the draws from number `at` on. */
  ghost function Resolved(places: seq<string>, nodes: seq<string>, draws: nat -> nat, at: nat): (r: seq<string>)
    ensures |r| == |places|
  {
    if places == [] then []
    else
      var front := places[..|places| - 1];
      Resolved(front, nodes, draws, at) + [Chosen(places[|places| - 1], nodes, draws(at + Wilds(front)))]
  }

  lemma {:induction false} ResolvedAt(places: seq<string>, nodes: seq<string>, draws: nat -> nat, at: nat, p: nat)
    requires p < |places|
    ensures exists draw: nat :: Resolved(places, nodes, draws, at)[p] == Chosen(places[p], nodes, draw)
  {
    var n := |places| - 1;
    var front := places[..n];
    if 0 < n {
      ResolvedAt(front, nodes, draws, at, if p < n then p else 0);
    }
    if p < n {
      var draw: nat :| Resolved(front, nodes, draws, at)[p] == Chosen(front[p], nodes, draw);
      assert Resolved(places, nodes, draws, at)[p] == Chosen(places[p], nodes, draw);
    } else {
      assert Resolved(places, nodes, draws, at)[p] == Chosen(places[p], nodes, draws(at + Wilds(front)));
    }
  }

  /** Where the resolution stands before place `p`. */
  ghost predicate ResolvedTo(places: seq<string>, nodes: seq<string>, draws: nat -> nat, at: nat,
                             p: nat, out: seq<string>, used: nat)
    requires p <= |places|
  {
    && |out| == |places| && out[p..] == places[p..]
    && out[..p] == Resolved(places[..p], nodes, draws, at)
    && AllResolvable(places[..p], nodes)
    && used == at + Wilds(places[..p])
  }

  lemma ResolveStep(places: seq<string>, nodes: seq<string>, draws: nat -> nat, at: nat,
                    p: nat, out: seq<string>, used: nat)
    requires p < |places| && ResolvedTo(places, nodes, draws, at, p, out, used)
    ensures |out| == |places| && out[p] == places[p]
    ensures !Resolvable(places[p], nodes) ==> !AllResolvable(places, nodes)
    ensures Resolvable(places[p], nodes) ==>
              ResolvedTo(places, nodes, draws, at, p + 1, out[p := Chosen(places[p], nodes, draws(used))],
                         used + if Wild(places[p]) then 1 else 0)
  {
    hide Resolvable, Wild, Chosen;
    assert out[p] == out[p..][0] == places[p..][0];
    var next := out[p := Chosen(places[p], nodes, draws(used))];
    assert places[..p + 1][..p] == places[..p];
    assert next[..p + 1] == out[..p] + [next[p]];
    assert next[p + 1..] == out[p..][1..] == places[p..][1..] == places[p + 1..];
  }

  method ResolvePlace(place: string, nodes: seq<string>, rng: Rng) returns (r: Result<string>)
    modifies rng
    ensures r.Ok? <==> Resolvable(place, nodes)
    ensures r.Ok? ==> r.value == Chosen(place, nodes, rng.draws(old(rng.used)))
    ensures r.Ok? ==> rng.used == old(rng.used) + if Wild(place) then 1 else 0
  {
    if !Wild(place) {
      return Ok(place);
    }
    var matched := MatchNodes(place, nodes);
    if |matched| == 0 {
      return Err;
    }
    var k := rng.Intn(|matched|);
    r := Ok(matched[k]);
  }

  method ResolveWildcards(places: seq<string>, nodes: seq<string>, rng: Rng) returns (r: Result<seq<string>>)
    modifies rng
    ensures r.Ok? <==> AllResolvable(places, nodes)
    ensures r.Ok? ==> r.value == Resolved(places, nodes, rng.draws, old(rng.used))
    ensures r.Ok? ==> rng.used == old(rng.used) + Wilds(places)
  {
    var out := places;
    ghost var at := rng.used;
    for p := 0 to |places|
      invariant ResolvedTo(places, nodes, rng.draws, at, p, out, rng.used)
    {
      hide *;
      ResolveStep(places, nodes, rng.draws, at, p, out, rng.used);
      var place := ResolvePlace(out[p], nodes, rng);
      if place.Err? {
        return Err;
      }
      out := out[p := place.value];
    }
    assert places[..|places|] == places && out[..|places|] == out;
    r := Ok(out);
  }

  // ---------------------------------------------------------------------------------------------
  // Expansion
  // ---------------------------------------------------------------------------------------------

  /** How many entries the bounds leave room for: of those that are set, the tighter. */
  function Length(spec: Spec): (n: nat)
    requires !spec.Rejected()
  {
    if spec.untilStep <= 0 then spec.count
    else if spec.untilStep < spec.startStep then 0
    else
      var fit := (spec.untilStep - spec.startStep) / spec.every + 1;
      if 0 < spec.count < fit then spec.count else fit
  }

  ghost function DrawsPerEntry(spec: Spec): nat {
    (if 0 < spec.jitter then 1 else 0) + Wilds(spec.event.Places()) + if spec.DrawsDelay() then 1 else 0
  }

  ghost function StepOf(spec: Spec, i: nat, draw: nat): int {
    if 0 < spec.jitter then
      var step := spec.Base(i) + draw % (2 * spec.jitter + 1) - spec.jitter;
      if step < 0 then 0 else step
    else spec.Base(i)
  }

  /** Entry `i` when its draws start at number `at`. */
  ghost function EntryAt(spec: Spec, nodes: seq<string>, draws: nat -> nat, at: nat, i: nat): RawEntry {
    var places := spec.event.Places();
    var at1 := at + if 0 < spec.jitter then 1 else 0;
    var e := spec.event.(step := StepOf(spec, i, draws(at))).WithPlaces(Resolved(places, nodes, draws, at1));
    if spec.DrawsDelay() then
      e.(delayMs := e.delayMsMin + draws(at1 + Wilds(places)) % (e.delayMsMax - e.delayMsMin + 1))
    else e
  }

  ghost predicate ExpandsTo(spec: Spec, nodes: seq<string>, draws: nat -> nat, at: nat, out: seq<RawEntry>) {
    AllResolvable(spec.event.Places(), nodes) &&
    forall i :: 0 <= i < |out| ==> out[i] == EntryAt(spec, nodes, draws, at + i * DrawsPerEntry(spec), i)
  }

  /** One turn of the expansion loop. */
  method MakeEntry(spec: Spec, nodes: seq<string>, rng: Rng, i: nat) returns (r: Result<RawEntry>)
    modifies rng
    ensures r.Ok? <==> AllResolvable(spec.event.Places(), nodes)
    ensures r.Ok? ==> r.value == EntryAt(spec, nodes, rng.draws, old(rng.used), i)
    ensures r.Ok? ==> rng.used == old(rng.used) + DrawsPerEntry(spec)
  {
    hide Wilds, Resolved, AllResolvable;
    var step := spec.startStep + i * spec.every;
    if 0 < spec.jitter {
      var d := rng.Intn(2 * spec.jitter + 1);
      step := step + d - spec.jitter;
      if step < 0 {
        step := 0;
      }
    }
    var entry := spec.event.(step := step);
    var places := ResolveWildcards(entry.Places(), nodes, rng);
    if places.Err? {
      return Err;
    }
    entry := entry.WithPlaces(places.value);
    if entry.kind == "latency" && entry.delayMs == 0 {
      var lo, hi := spec.event.delayMsMin, spec.event.delayMsMax;
      if 0 < hi && 0 < lo && lo <= hi {
        var d := rng.Intn(hi - lo + 1);
        entry := entry.(delayMs := lo + d);
      }
    }
    r := Ok(entry);
  }

  /** Expansion fails on a rejected spec, or when it has an entry to make and some wildcard matches
      nothing; else it makes exactly Length entries, each a function of the draws. */
  method ExpandRecurring(spec: Spec, nodes: seq<string>, rng: Rng) returns (r: Result<seq<RawEntry>>)
    modifies rng
    ensures r.Err? <==> spec.Rejected() || (0 < Length(spec) && !AllResolvable(spec.event.Places(), nodes))
    ensures r.Ok? ==> |r.value| == Length(spec)
    ensures r.Ok? && r.value != [] ==> ExpandsTo(spec, nodes, rng.draws, old(rng.used), r.value)
    ensures r.Err? <==> FailsToExpand(spec, nodes)
    ensures r.Ok? ==> forall i: nat :: i < |r.value| <==> InBounds(spec, i)
    ensures r.Ok? ==> forall i: nat :: i < |r.value| ==> AllowedEntry(spec, nodes, i, r.value[i])
  {
    Expansion(spec, nodes);
    r := Expand(spec, nodes, rng);
    if r.Ok? {
      forall i: nat | i < |r.value|
        ensures AllowedEntry(spec, nodes, i, r.value[i])
      {
        EntryIsAllowed(spec, nodes, rng.draws, old(rng.used) + i * DrawsPerEntry(spec), i);
      }
    }
  }

  method Expand(spec: Spec, nodes: seq<string>, rng: Rng) returns (r: Result<seq<RawEntry>>)
    modifies rng
    ensures r.Err? <==> spec.Rejected() || (0 < Length(spec) && !AllResolvable(spec.event.Places(), nodes))
    ensures r.Ok? ==> |r.value| == Length(spec)
    ensures r.Ok? && r.value != [] ==> ExpandsTo(spec, nodes, rng.draws, old(rng.used), r.value)
  {
    hide EntryAt, DrawsPerEntry, Length, AllResolvable;
    if spec.every <= 0 || (spec.count <= 0 && spec.untilStep <= 0) || spec.event.kind == "" {
      return Err;
    }
    ghost var per := DrawsPerEntry(spec);
    ghost var start := rng.used;
    var out: seq<RawEntry> := [];
    var i := 0;
    while true
      invariant 0 <= i <= Length(spec) && |out| == i
      invariant rng.used == start + i * per
      invariant 0 < i ==> ExpandsTo(spec, nodes, rng.draws, start, out)
      decreases Length(spec) - i
    {
      StopsAt(spec, i);
      var step := spec.startStep + i * spec.every;
      if 0 < spec.untilStep && spec.untilStep < step {
        break;
      }
      if 0 < spec.count && spec.count <= i {
        break;
      }
      var entry := MakeEntry(spec, nodes, rng, i);
      if entry.Err? {
        return Err;
      }
      assert start + i * per + per == start + (i + 1) * per;
      out := out + [entry.value];
      i := i + 1;
    }
    r := Ok(out);
  }

  /** The loop's two tests stop it at Length and at no entry before. */
  lemma StopsAt(spec: Spec, i: nat)
    requires !spec.Rejected()
    ensures Length(spec) <= i <==>
              (0 < spec.untilStep && spec.untilStep < spec.Base(i)) || (0 < spec.count && spec.count <= i)
  {
    if 0 < spec.untilStep && spec.startStep <= spec.untilStep {
      FloorBound(spec.untilStep - spec.startStep, spec.every, i);
    } else if 0 < spec.untilStep {
      assert 0 <= i * spec.every;
    }
  }

  lemma FloorBound(room: nat, every: nat, i: nat)
    requires 0 < every
    ensures room / every + 1 <= i <==> room < i * every
  {
    var q := room / every;
    assert q * every <= room < q * every + every;
    if q + 1 <= i {
      assert (q + 1) * every <= i * every;
    } else {
      assert i * every <= q * every;
    }
  }

  // What expansion promises, on the fields of the spec.

  /** The bounds that are set leave room for an entry number `i`. */
  ghost predicate InBounds(spec: Spec, i: nat) {
    && (0 < spec.untilStep ==> spec.startStep + i * spec.every <= spec.untilStep)
    && (0 < spec.count ==> i < spec.count)
  }

  /** A pattern no listed node matches: only a final star is a wildcard that can be. */
  ghost predicate Unmatched(place: string, nodes: seq<string>) {
    '*' in place && !exists n :: n in nodes && place[|place| - 1] == '*' && place[..|place| - 1] <= n
  }

  ghost predicate FailsToExpand(spec: Spec, nodes: seq<string>) {
    var e := spec.event;
    || spec.every <= 0 || (spec.count <= 0 && spec.untilStep <= 0) || e.kind == ""
    || (InBounds(spec, 0) && (Unmatched(e.container, nodes) || Unmatched(e.from, nodes)
                              || Unmatched(e.to, nodes) || Unmatched(e.target, nodes)))
  }

  ghost predicate AllowedPlace(place: string, nodes: seq<string>, chosen: string) {
    if '*' in place then chosen in nodes && place[|place| - 1] == '*' && place[..|place| - 1] <= chosen
    else chosen == place
  }

  /** Entry number `i` may be `e`: a step within the jitter of its place in the series, not negative if
      the series is not or there is jitter; each wildcard a listed node with its prefix; a latency drawn
      from its range, when there is one and no delay is given; and nothing else changed. */
  ghost predicate AllowedEntry(spec: Spec, nodes: seq<string>, i: nat, e: RawEntry) {
    var event, base := spec.event, spec.startStep + i * spec.every;
    && (spec.jitter <= 0 ==> e.step == base)
    && (0 < spec.jitter && 0 <= base ==> 0 <= e.step && -spec.jitter <= e.step - base <= spec.jitter)
    && (0 < spec.jitter && base < 0 ==> 0 <= e.step && (e.step == 0 || e.step - base <= spec.jitter))
    && AllowedPlace(event.container, nodes, e.container) && AllowedPlace(event.from, nodes, e.from)
    && AllowedPlace(event.to, nodes, e.to) && AllowedPlace(event.target, nodes, e.target)
    && (if event.kind == "latency" && event.delayMs == 0 && 0 < event.delayMsMin <= event.delayMsMax
        then event.delayMsMin <= e.delayMs <= event.delayMsMax
        else e.delayMs == event.delayMs)
    && e.kind == event.kind && e.recoverAfter == event.recoverAfter && e.rest == event.rest
    && e.delayMsMin == event.delayMsMin && e.delayMsMax == event.delayMsMax
  }

  lemma LengthInBounds(spec: Spec, i: nat)
    requires !spec.Rejected()
    ensures i < Length(spec) <==> InBounds(spec, i)
  {
    StopsAt(spec, i);
  }

  lemma ResolvableIsMatched(place: string, nodes: seq<string>)
    ensures Resolvable(place, nodes) <==> !Unmatched(place, nodes)
  {
    forall n
      ensures n in Matches(place, nodes) <==> n in nodes && place != [] && place[|place| - 1] == '*' && place[..|place| - 1] <= n
    {
      MatchesAreNodes(place, nodes, n);
    }
    if Matches(place, nodes) != [] {
      assert Matches(place, nodes)[0] in Matches(place, nodes);
    }
  }

  lemma Expansion(spec: Spec, nodes: seq<string>)
    ensures FailsToExpand(spec, nodes)
            <==> spec.Rejected() || (0 < Length(spec) && !AllResolvable(spec.event.Places(), nodes))
    ensures !spec.Rejected() ==> forall i: nat :: i < Length(spec) <==> InBounds(spec, i)
  {
    hide Unmatched, Resolvable, InBounds, Length;
    if !spec.Rejected() {
      forall i: nat
        ensures i < Length(spec) <==> InBounds(spec, i)
      {
        LengthInBounds(spec, i);
      }
    }
    var places := spec.event.Places();
    forall p | 0 <= p < 4
      ensures Resolvable(places[p], nodes) <==> !Unmatched(places[p], nodes)
    {
      ResolvableIsMatched(places[p], nodes);
    }
    assert AllResolvable(places, nodes) <==>
             Resolvable(places[0], nodes) && Resolvable(places[1], nodes) && Resolvable(places[2], nodes) && Resolvable(places[3], nodes);
  }

  lemma StepIsAllowed(spec: Spec, i: nat, draw: nat)
    ensures var step, base := StepOf(spec, i, draw), spec.startStep + i * spec.every;
            && (spec.jitter <= 0 ==> step == base)
            && (0 < spec.jitter && 0 <= base ==> 0 <= step && -spec.jitter <= step - base <= spec.jitter)
            && (0 < spec.jitter && base < 0 ==> 0 <= step && (step == 0 || step - base <= spec.jitter))
  {
  }

  lemma PlacesAreAllowed(places: seq<string>, nodes: seq<string>, draws: nat -> nat, at: nat)
    requires AllResolvable(places, nodes)
    ensures forall p :: 0 <= p < |places| ==> AllowedPlace(places[p], nodes, Resolved(places, nodes, draws, at)[p])
  {
    hide Resolved, Wilds;
    forall p | 0 <= p < |places|
      ensures AllowedPlace(places[p], nodes, Resolved(places, nodes, draws, at)[p])
    {
      ResolvedAt(places, nodes, draws, at, p);
      assert Resolvable(places[p], nodes);
      MatchesAreNodes(places[p], nodes, Resolved(places, nodes, draws, at)[p]);
    }
  }

  lemma DelayInRange(lo: int, hi: int, draw: nat)
    requires lo <= hi
    ensures lo <= lo + draw % (hi - lo + 1) <= hi
  {
  }

  /** Every entry is allowed, whatever is drawn. */
  lemma EntryIsAllowed(spec: Spec, nodes: seq<string>, draws: nat -> nat, at: nat, i: nat)
    requires AllResolvable(spec.event.Places(), nodes)
    ensures AllowedEntry(spec, nodes, i, EntryAt(spec, nodes, draws, at, i))
  {
    hide StepOf, Resolved, AllResolvable, AllowedPlace, Wilds;
    var at1 := at + if 0 < spec.jitter then 1 else 0;
    StepIsAllowed(spec, i, draws(at));
    PlacesAreAllowed(spec.event.Places(), nodes, draws, at1);
    if spec.DrawsDelay() {
      DelayInRange(spec.event.delayMsMin, spec.event.delayMsMax, draws(at1 + Wilds(spec.event.Places())));
    }
    var resolved := Resolved(spec.event.Places(), nodes, draws, at1);
    assert EntryAt(spec, nodes, draws, at, i).Places() == resolved;
  }

  // ---------------------------------------------------------------------------------------------
  // Nothing that is allowed is out of reach
  // ---------------------------------------------------------------------------------------------

  /** The draws from number `at` on are `ds`. */
  ghost predicate Gives(draws: nat -> nat, at: nat, ds: seq<nat>) {
    forall k: nat :: at <= k < at + |ds| ==> draws(k) == ds[k - at]
  }

  lemma GivesBoth(draws: nat -> nat, at: nat, a: seq<nat>, b: seq<nat>)
    requires Gives(draws, at, a + b)
    ensures Gives(draws, at, a) && Gives(draws, at + |a|, b)
  {
    forall k: nat | at <= k < at + |a|
      ensures draws(k) == a[k - at]
    {
      assert (a + b)[k - at] == a[k - at];
    }
    forall k: nat | at + |a| <= k < at + |a| + |b|
      ensures draws(k) == b[k - at - |a|]
    {
      assert (a + b)[k - at] == b[k - at - |a|];
    }
  }

  lemma AllowedMatches(place: string, nodes: seq<string>, chosen: string)
    requires AllowedPlace(place, nodes, chosen)
    ensures if Wild(place) then chosen in Matches(place, nodes) else chosen == place
  {
    hide Matches;
    MatchesAreNodes(place, nodes, chosen);
  }

  /** Some draw chooses any one place that is allowed. */
  lemma PlaceDraw(place: string, nodes: seq<string>, chosen: string) returns (draw: nat)
    requires AllowedPlace(place, nodes, chosen)
    ensures Resolvable(place, nodes) && Chosen(place, nodes, draw) == chosen
  {
    draw := 0;
    AllowedMatches(place, nodes, chosen);
    hide AllowedPlace, Wild, Matches;
    if Wild(place) {
      var k :| 0 <= k < |Matches(place, nodes)| && Matches(place, nodes)[k] == chosen;
      draw := k;
    }
  }

  lemma {:induction false} PlacesDraws(places: seq<string>, nodes: seq<string>, chosen: seq<string>) returns (ds: seq<nat>)
    requires |chosen| == |places| && forall p :: 0 <= p < |places| ==> AllowedPlace(places[p], nodes, chosen[p])
    ensures |ds| == Wilds(places) && AllResolvable(places, nodes)
    ensures forall draws: nat -> nat, at: nat :: Gives(draws, at, ds) ==> Resolved(places, nodes, draws, at) == chosen
  {
    hide AllowedPlace, Resolvable, Gives;
    ds := [];
    if places != [] {
      var n := |places| - 1;
      var front := PlacesDraws(places[..n], nodes, chosen[..n]);
      var draw := PlaceDraw(places[n], nodes, chosen[n]);
      ds := front + if Wild(places[n]) then [draw] else [];
      forall draws: nat -> nat, at: nat | Gives(draws, at, ds)
        ensures Resolved(places, nodes, draws, at) == chosen
      {
        GivesBoth(draws, at, front, if Wild(places[n]) then [draw] else []);
        assert Chosen(places[n], nodes, draws(at + Wilds(places[..n]))) == chosen[n] by {
          GivesOne(draws, at + |front|, draw, Wild(places[n]));
        }
      }
    }
  }

  lemma GivesOne(draws: nat -> nat, at: nat, draw: nat, some: bool)
    requires Gives(draws, at, if some then [draw] else [])
    ensures some ==> draws(at) == draw
  {
  }

  lemma StepDraw(spec: Spec, nodes: seq<string>, i: nat, e: RawEntry) returns (draw: nat)
    requires AllowedEntry(spec, nodes, i, e)
    ensures StepOf(spec, i, draw) == e.step
  {
    hide AllowedPlace;
    var base := spec.Base(i);
    draw := if spec.jitter <= 0 || (e.step == 0 && base <= spec.jitter) then 0 else e.step - base + spec.jitter;
    if 0 < spec.jitter {
      SmallRemainder(draw, 2 * spec.jitter + 1);
    }
  }

  lemma SmallRemainder(draw: nat, n: nat)
    requires draw < n
    ensures draw % n == draw
  {
  }

  lemma EntryDraws(spec: Spec, nodes: seq<string>, i: nat, e: RawEntry) returns (ds: seq<nat>)
    requires AllowedEntry(spec, nodes, i, e)
    ensures |ds| == DrawsPerEntry(spec) && AllResolvable(spec.event.Places(), nodes)
    ensures forall draws: nat -> nat, at: nat :: Gives(draws, at, ds) ==> EntryAt(spec, nodes, draws, at, i) == e
  {
    var draw := StepDraw(spec, nodes, i, e);
    var step := if 0 < spec.jitter then [draw] else [];
    var places := PlacesDraws(spec.event.Places(), nodes, e.Places());
    var delayed := spec.DrawsDelay();
    var late := if delayed then e.delayMs - e.delayMsMin else 0;
    var delay := if delayed then [late] else [];
    ds := step + (places + delay);
    forall draws: nat -> nat, at: nat | Gives(draws, at, ds)
      ensures EntryAt(spec, nodes, draws, at, i) == e
    {
      hide AllowedPlace, Gives, Resolved, Wilds, AllResolvable, StepOf;
      GivesBoth(draws, at, step, places + delay);
      GivesBoth(draws, at + |step|, places, delay);
      GivesOne(draws, at, draw, 0 < spec.jitter);
      GivesOne(draws, at + |step| + |places|, late, delayed);
      if delayed {
        SmallRemainder(late, e.delayMsMax - e.delayMsMin + 1);
      }
    }
  }

  lemma {:induction false} SeriesDraws(spec: Spec, nodes: seq<string>, r: seq<RawEntry>) returns (ds: seq<nat>)
    requires forall i: nat :: i < |r| ==> AllowedEntry(spec, nodes, i, r[i])
    ensures |ds| == |r| * DrawsPerEntry(spec)
    ensures r != [] ==> AllResolvable(spec.event.Places(), nodes)
    ensures forall draws: nat -> nat, at: nat :: Gives(draws, at, ds) ==> Yields(spec, nodes, draws, at, r)
  {
    hide AllowedEntry, AllResolvable, DrawsPerEntry, EntryAt, Gives;
    ds := [];
    if r != [] {
      var n := |r| - 1;
      var front := SeriesDraws(spec, nodes, r[..n]);
      var last := EntryDraws(spec, nodes, n, r[n]);
      ds := front + last;
      assert (n + 1) * DrawsPerEntry(spec) == n * DrawsPerEntry(spec) + DrawsPerEntry(spec);
      forall draws: nat -> nat, at: nat | Gives(draws, at, ds)
        ensures Yields(spec, nodes, draws, at, r)
      {
        GivesBoth(draws, at, front, last);
        assert Yields(spec, nodes, draws, at, r[..n]);
        assert EntryAt(spec, nodes, draws, at + |front|, n) == r[n];
      }
    }
  }

  ghost predicate Yields(spec: Spec, nodes: seq<string>, draws: nat -> nat, at: nat, r: seq<RawEntry>) {
    forall i :: 0 <= i < |r| ==> r[i] == EntryAt(spec, nodes, draws, at + i * DrawsPerEntry(spec), i)
  }

  /** Whatever entries are allowed, together, are what the spec expands to for some draws: no two of
      them share a draw, and no value a draw may have is left out. */
  lemma EverySeriesPossible(spec: Spec, nodes: seq<string>, at: nat, r: seq<RawEntry>)
    requires r != [] && forall i: nat :: i < |r| ==> AllowedEntry(spec, nodes, i, r[i])
    ensures exists draws: nat -> nat :: ExpandsTo(spec, nodes, draws, at, r)
  {
    hide AllowedEntry, AllResolvable, DrawsPerEntry, EntryAt;
    var ds := SeriesDraws(spec, nodes, r);
    var draws: nat -> nat := (k: nat) => if at <= k < at + |ds| then ds[k - at] else 0;
    assert Gives(draws, at, ds);
    assert Yields(spec, nodes, draws, at, r);
    assert ExpandsTo(spec, nodes, draws, at, r);
  }
}
