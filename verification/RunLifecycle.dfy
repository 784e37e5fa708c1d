/** The life of a run: a watcher fed by a lossy event bus, late sweeps of the finding store, and
    the status it ends in. */
module RunLifecycle {
  import opened Sets
  import FS = FindingStore
  import opened Wrappers

  // ---------------------------------------------------------------------------------------------
  // The event bus
  // ---------------------------------------------------------------------------------------------

  datatype Event = FindingEvent(finding: FS.Finding) | OtherEvent

  datatype Channel = Channel(capacity: nat, queue: seq<Event>) {
    /** A full channel drops the event. */
    function Offer(ev: Event): Channel {
      if |queue| < capacity then this.(queue := queue + [ev]) else this
    }
  }

  ghost function Offered(subscribers: map<int, Channel>, ev: Event): map<int, Channel> {
    map id | id in subscribers :: subscribers[id].Offer(ev)
  }

  class EventBus {
    var subscribers: map<int, Channel>
    var nextId: int

    constructor ()
      ensures subscribers == map[] && nextId == 0
    {
      subscribers, nextId := map[], 0;
    }

    ghost predicate Valid()
      reads this
    {
      forall id :: id in subscribers ==> id < nextId && |subscribers[id].queue| <= subscribers[id].capacity
    }

    method Publish(ev: Event)
      requires Valid()
      modifies this`subscribers
      ensures Valid()
      ensures subscribers == Offered(old(subscribers), ev)
      ensures subscribers.Keys == old(subscribers).Keys
      ensures forall id :: id in subscribers ==>
                var before, after := old(subscribers)[id], subscribers[id];
                && after.capacity == before.capacity
                && after.queue == if |before.queue| < before.capacity then before.queue + [ev] else before.queue
    {
      var todo := subscribers.Keys;
      while todo != {}
        invariant todo <= subscribers.Keys == old(subscribers).Keys
        invariant forall id :: id in subscribers ==>
                    subscribers[id] == if id in todo then old(subscribers)[id] else old(subscribers)[id].Offer(ev)
        decreases todo
      {
        SomeMember(todo);
        var id :| id in todo;
        subscribers := subscribers[id := subscribers[id].Offer(ev)];
        todo := todo - {id};
      }
      assert subscribers.Keys == Offered(old(subscribers), ev).Keys;
      assert forall id :: id in subscribers ==> id !in todo;
      assert forall id :: id in subscribers ==> subscribers[id] == Offered(old(subscribers), ev)[id];
    }

    method Subscribe(buf: nat) returns (id: int)
      requires Valid()
      modifies this
      ensures Valid()
      ensures id !in old(subscribers) && subscribers == old(subscribers)[id := Channel(buf, [])]
    {
      id := nextId;
      nextId := nextId + 1;
      subscribers := subscribers[id := Channel(buf, [])];
    }

    method Unsubscribe(id: int)
      requires Valid()
      modifies this`subscribers
      ensures Valid()
      ensures subscribers == old(subscribers) - {id}
    {
      if id in subscribers {
        subscribers := subscribers - {id};
      }
    }
  }

  // ---------------------------------------------------------------------------------------------
  // The run record
  // ---------------------------------------------------------------------------------------------

  datatype Status = Running | CompletedBudget | CompletedStopOn

  const STOP_ON_MATCHES: map<string, seq<string>> :=
    map["first_divergence" := ["state_divergence"], "first_crash" := ["node_crash"], "none" := []]

  ghost predicate Matches(stopOn: seq<string>, kind: string) {
    (kind == "state_divergence" && "first_divergence" in stopOn) || (kind == "node_crash" && "first_crash" in stopOn)
  }

  /** A divergence stops a run that asks for the first divergence, a crash one that asks for the first
      crash; nothing else stops one. */
  ghost predicate StopsOn(stopOn: seq<string>, kind: string) {
    match kind
    case "state_divergence" => "first_divergence" in stopOn
    case "node_crash" => "first_crash" in stopOn
    case _ => false
  }

  /** The ids a sweep of `all` appends: this run's findings that `ids` does not list. */
  ghost function Missing(ids: seq<string>, runId: string, all: seq<FS.Finding>): seq<string> {
    if all == [] then []
    else
      var f := all[|all| - 1];
      Missing(ids, runId, all[..|all| - 1]) + if f.runId == runId && f.id !in ids then [f.id] else []
  }

  ghost function Synced(ids: seq<string>, runId: string, all: seq<FS.Finding>): seq<string> {
    ids + Missing(ids, runId, all)
  }

  class RunRecord {
    const id: string
    const stopOn: seq<string>
    var status: Status
    var trigger: string
    var findingIds: seq<string>

    constructor (id: string, stopOn: seq<string>)
      ensures this.id == id && this.stopOn == stopOn
      ensures status == Running && trigger == "" && findingIds == []
    {
      this.id, this.stopOn := id, stopOn;
      status, trigger, findingIds := Running, "", [];
    }

    /** Whether any condition of stop_on lists the kind; unknown conditions list nothing. */
    method MatchesStopOn(kind: string) returns (r: bool)
      ensures r <==> Matches(stopOn, kind)
      ensures r <==> StopsOn(stopOn, kind)
    {
      for i := 0 to |stopOn|
        invariant !Matches(stopOn[..i], kind)
      {
        assert stopOn[..i + 1] == stopOn[..i] + [stopOn[i]];
        var kinds := if stopOn[i] in STOP_ON_MATCHES then STOP_ON_MATCHES[stopOn[i]] else [];
        for k := 0 to |kinds|
          invariant forall l :: 0 <= l < k ==> kinds[l] != kind
        {
          if kinds[k] == kind {
            assert kind == kinds[0] && stopOn[i] in stopOn;
            return true;
          }
        }
        assert kinds != [] ==> kinds[0] != kind;
      }
      assert stopOn[..|stopOn|] == stopOn;
      r := false;
    }

    /** What the watcher does with a finding from the bus, up to the decision to stop. */
    method Receive(f: FS.Finding) returns (stop: bool)
      modifies this`findingIds
      ensures findingIds == old(findingIds) + [f.id]
      ensures stop <==> StopsOn(stopOn, f.kind)
    {
      findingIds := findingIds + [f.id];
      stop := MatchesStopOn(f.kind);
    }

    /** The part of a sweep made under the lock. */
    method SyncFindings(all: seq<FS.Finding>)
      modifies this`findingIds
      ensures findingIds == Synced(old(findingIds), id, all)
    {
      var already := set x | x in findingIds;
      for i := 0 to |all|
        invariant findingIds == old(findingIds) + Missing(old(findingIds), id, all[..i])
      {
        assert all[..i + 1][..i] == all[..i];
        var f := all[i];
        if f.runId != id || f.id in already {
          continue;
        }
        findingIds := findingIds + [f.id];
      }
      assert all[..|all|] == all;
    }

    method Close(status: Status, triggerId: string)
      modifies this`status, this`trigger
      ensures this.status == status && trigger == triggerId
    {
      this.status, trigger := status, triggerId;
    }
  }

  lemma {:induction false} MissingIs(ids: seq<string>, runId: string, all: seq<FS.Finding>, x: string)
    ensures x in Missing(ids, runId, all) <==> x !in ids && exists f :: f in all && f.runId == runId && f.id == x
  {
    if all != [] {
      var n := |all| - 1;
      MissingIs(ids, runId, all[..n], x);
      assert all == all[..n] + [all[n]];
      if x !in ids && exists f :: f in all && f.runId == runId && f.id == x {
        var f :| f in all && f.runId == runId && f.id == x;
        assert f in all[..n] || f == all[n];
      }
    }
  }

  /** A sweep lists every finding of the run that it saw, and nothing else that was not listed. */
  lemma SyncedIs(ids: seq<string>, runId: string, all: seq<FS.Finding>, x: string)
    ensures x in Synced(ids, runId, all) <==> x in ids || exists f :: f in all && f.runId == runId && f.id == x
  {
    MissingIs(ids, runId, all, x);
  }

  /** A second sweep of the same listing adds nothing. */
  lemma SecondSweepIdle(ids: seq<string>, runId: string, all: seq<FS.Finding>)
    ensures var once := Synced(ids, runId, all); Synced(once, runId, all) == once
  {
    var once := Synced(ids, runId, all);
    var more := Missing(once, runId, all);
    if more != [] {
      MissingIs(once, runId, all, more[0]);
      SyncedIs(ids, runId, all, more[0]);
      assert false;
    }
  }

  // ---------------------------------------------------------------------------------------------
  // The protocol
  // ---------------------------------------------------------------------------------------------

  /** Where the watcher is. From Sweeping on it carries what its last listing of the store saw. */
  datatype Phase =
    | Starting
    | Watching
    | Listing(status: Status, trigger: string)
    | Sweeping(status: Status, trigger: string, seen: seq<FS.Finding>)
    | Setting(status: Status, trigger: string, seen: seq<FS.Finding>)
    | Ended(seen: seq<FS.Finding>)

  /** `ops` is the history of the store, `delivered` the findings the watcher has received and
      `swept` the ids that sweeps have appended. */
  datatype State = State(ops: seq<FS.Op>, unpublished: set<FS.Finding>, channel: Option<Channel>, phase: Phase,
                         status: Status, trigger: string, ids: seq<string>,
                         readers: map<int, seq<FS.Finding>>,
                         delivered: seq<FS.Finding>, swept: seq<string>)

  datatype Setup = Setup(id: string, stopOn: seq<string>, budgetEndsAt: int, hasBus: bool)

  datatype Action =
    | AddFinding(f: FS.Finding)
    | UpdateFinding(id: string, r: string)
    | Publish(ev: Event)
    | Subscribe
    | Tick(now: int)
    | Receive
    | CloseList
    | CloseSync
    | CloseSet
    | ReadList(reader: int)
    | ReadSync(reader: int)

  const INITIAL := State([], {}, None, Starting, Running, "", [], map[], [], [])

  const FULL := FS.ListOpts("", "", 1000)

  /** What List answers to a sweep. */
  ghost function Listed(ops: seq<FS.Op>): seq<FS.Finding> {
    var c := FS.After(ops);
    if c.InRange() then FS.NewestFirst(FS.LastWanted(c, FULL, |c.findings|, FULL.Limit())) else []
  }

  ghost predicate Enabled(setup: Setup, s: State, a: Action) {
    match a
    case AddFinding(f) => f.id != "" && FS.DistinctIds(FS.Log(s.ops + [FS.Add(f)]))
    case UpdateFinding(_, _) => true
    case Publish(ev) => setup.hasBus && (ev.FindingEvent? ==> ev.finding in s.unpublished)
    case Subscribe => s.phase.Starting?
    case Tick(_) => s.phase.Watching?
    case Receive => s.phase.Watching? && s.channel.Some? && s.channel.value.queue != []
    case CloseList => s.phase.Listing?
    case CloseSync => s.phase.Sweeping?
    case CloseSet => s.phase.Setting?
    case ReadList(_) => true
    case ReadSync(reader) => reader in s.readers
  }

  ghost function Apply(setup: Setup, s: State, a: Action): State
    requires Enabled(setup, s, a)
  {
    match a
    case AddFinding(f) => s.(ops := s.ops + [FS.Add(f)], unpublished := s.unpublished + {f})
    case UpdateFinding(id, r) => s.(ops := s.ops + [FS.Update(id, r)])
    case Publish(ev) =>
      s.(unpublished := if ev.FindingEvent? then s.unpublished - {ev.finding} else s.unpublished,
         channel := if s.channel.Some? then Some(s.channel.value.Offer(ev)) else None)
    case Subscribe => s.(phase := Watching, channel := if setup.hasBus then Some(Channel(64, [])) else None)
    case Tick(now) => if setup.budgetEndsAt < now then s.(phase := Listing(CompletedBudget, "")) else s
    case Receive =>
      var ev := s.channel.value.queue[0];
      var s1 := s.(channel := Some(s.channel.value.(queue := s.channel.value.queue[1..])));
      if ev.FindingEvent? then
        s1.(ids := s.ids + [ev.finding.id], delivered := s.delivered + [ev.finding],
            phase := if Matches(setup.stopOn, ev.finding.kind) then Listing(CompletedStopOn, ev.finding.id) else Watching)
      else s1
    case CloseList => s.(phase := Sweeping(s.phase.status, s.phase.trigger, Listed(s.ops)))
    case CloseSync => Swept(setup, s, s.phase.seen).(phase := Setting(s.phase.status, s.phase.trigger, s.phase.seen))
    case CloseSet =>
      s.(status := s.phase.status, trigger := s.phase.trigger, phase := Ended(s.phase.seen), channel := None)
    case ReadList(reader) => s.(readers := s.readers[reader := Listed(s.ops)])
    case ReadSync(reader) => Swept(setup, s, s.readers[reader]).(readers := s.readers - {reader})
  }

  ghost function Swept(setup: Setup, s: State, all: seq<FS.Finding>): State {
    s.(ids := Synced(s.ids, setup.id, all), swept := s.swept + Missing(s.ids, setup.id, all))
  }

  ghost predicate StepAt(setup: Setup, run: seq<State>, acts: seq<Action>, i: nat)
    requires i < |acts| && |run| == |acts| + 1
  {
    Enabled(setup, run[i], acts[i]) && run[i + 1] == Apply(setup, run[i], acts[i])
  }

  ghost predicate IsRun(setup: Setup, run: seq<State>, acts: seq<Action>) {
    |run| == |acts| + 1 && run[0] == INITIAL && forall i: nat :: i < |acts| ==> StepAt(setup, run, acts, i)
  }

  // ---------------------------------------------------------------------------------------------
  // Status and trigger
  // ---------------------------------------------------------------------------------------------

  /** The status a close is to set goes with its trigger. */
  ghost predicate Verdict(setup: Setup, s: State, status: Status, trigger: string) {
    && status != Running
    && (trigger != "" <==> status == CompletedStopOn)
    && (status == CompletedStopOn ==>
          && s.delivered != [] && s.delivered[|s.delivered| - 1].id == trigger && trigger in s.ids
          && Matches(setup.stopOn, s.delivered[|s.delivered| - 1].kind))
    && (status == CompletedBudget ==> NoneMatches(setup, s.delivered))
  }

  ghost predicate NoneMatches(setup: Setup, fs: seq<FS.Finding>) {
    forall i :: 0 <= i < |fs| ==> !Matches(setup.stopOn, fs[i].kind)
  }

  ghost predicate StatusOk(setup: Setup, s: State) {
    && (!s.phase.Ended? ==> s.status == Running && s.trigger == "")
    && (s.phase.Ended? ==> Verdict(setup, s, s.status, s.trigger))
    && (s.phase.Listing? || s.phase.Sweeping? || s.phase.Setting? ==> Verdict(setup, s, s.phase.status, s.phase.trigger))
    && (s.delivered != [] ==> NoneMatches(setup, s.delivered[..|s.delivered| - 1]))
    && (s.phase.Starting? || s.phase.Watching? ==> NoneMatches(setup, s.delivered))
    && NamesOk(s)
  }

  /** Findings on their way to the watcher have ids. */
  ghost predicate NamesOk(s: State) {
    && (forall f :: f in s.unpublished ==> f.id != "")
    && (s.channel.Some? ==> forall f :: FindingEvent(f) in s.channel.value.queue ==> f.id != "")
  }

  lemma StatusReceive(setup: Setup, s: State, a: Action)
    requires StatusOk(setup, s) && Enabled(setup, s, a) && a.Receive?
    ensures StatusOk(setup, Apply(setup, s, a))
  {
    hide Missing, Matches, Listed;
    var ev := s.channel.value.queue[0];
    assert ev in s.channel.value.queue;
    if ev.FindingEvent? {
      assert (s.delivered + [ev.finding])[..|s.delivered|] == s.delivered;
    }
  }

  lemma StatusOther(setup: Setup, s: State, a: Action)
    requires StatusOk(setup, s) && Enabled(setup, s, a) && !a.Receive?
    ensures StatusOk(setup, Apply(setup, s, a))
  {
    hide Missing, Matches, Listed;
  }

  lemma {:induction false} StatusStep(setup: Setup, s: State, a: Action)
    requires StatusOk(setup, s) && Enabled(setup, s, a)
    ensures StatusOk(setup, Apply(setup, s, a))
  {
    hide StatusOk, Enabled, Apply;
    if a.Receive? {
      StatusReceive(setup, s, a);
    } else {
      StatusOther(setup, s, a);
    }
  }

  lemma {:induction false} RunStatus(setup: Setup, run: seq<State>, acts: seq<Action>, n: nat)
    requires IsRun(setup, run, acts) && n < |run|
    ensures StatusOk(setup, run[n])
  {
    if 0 < n {
      RunStatus(setup, run, acts, n - 1);
      assert StepAt(setup, run, acts, n - 1);
      StatusStep(setup, run[n - 1], acts[n - 1]);
    }
  }

  /** Once a run has left the running state, its status and its trigger never change. */
  lemma {:induction false} StatusSettles(setup: Setup, run: seq<State>, acts: seq<Action>, m: nat, n: nat)
    requires IsRun(setup, run, acts) && m <= n < |run| && run[m].status != Running
    ensures run[n].status == run[m].status && run[n].trigger == run[m].trigger
  {
    if m < n {
      StatusSettles(setup, run, acts, m, n - 1);
      RunStatus(setup, run, acts, n - 1);
      assert StepAt(setup, run, acts, n - 1);
    }
  }

  /** A trigger is recorded exactly when the run was stopped by a finding. It is then the last
      finding that was delivered, is listed, is of a kind that stop_on asks for, and no finding
      delivered before it was. */
  lemma TriggerIsFirstMatch(setup: Setup, run: seq<State>, acts: seq<Action>, n: nat)
    requires IsRun(setup, run, acts) && n < |run|
    ensures var s := run[n];
            && (s.trigger != "" <==> s.status == CompletedStopOn)
            && (s.trigger != "" ==>
                  var last := |s.delivered| - 1;
                  && last >= 0 && s.delivered[last].id == s.trigger && s.trigger in s.ids
                  && StopsOn(setup.stopOn, s.delivered[last].kind)
                  && forall i :: 0 <= i < last ==> !StopsOn(setup.stopOn, s.delivered[i].kind))
            && (s.trigger == "" && s.status != Running ==>
                  forall i :: 0 <= i < |s.delivered| ==> !StopsOn(setup.stopOn, s.delivered[i].kind))
  {
    RunStatus(setup, run, acts, n);
    forall kind
      ensures Matches(setup.stopOn, kind) <==> StopsOn(setup.stopOn, kind)
    {
    }
  }

  ghost predicate LateTick(setup: Setup, acts: seq<Action>, k: nat) {
    k < |acts| && acts[k].Tick? && acts[k].now > setup.budgetEndsAt
  }

  /** The status a run has, or is about to have. */
  ghost function Fate(s: State): Status {
    match s.phase
    case Listing(status, _) => status
    case Sweeping(status, _, _) => status
    case Setting(status, _, _) => status
    case _ => s.status
  }

  lemma FateStep(setup: Setup, s: State, a: Action)
    requires StatusOk(setup, s) && Enabled(setup, s, a)
    ensures Fate(Apply(setup, s, a)) == CompletedBudget <==>
              Fate(s) == CompletedBudget || (a.Tick? && a.now > setup.budgetEndsAt)
    ensures Fate(s) != Running ==> Fate(Apply(setup, s, a)) == Fate(s)
  {
    hide Missing, Listed, Matches;
  }

  /** A run ends for its budget exactly when the watcher sees a tick past the end of it. */
  lemma {:induction false} BudgetEndsRun(setup: Setup, run: seq<State>, acts: seq<Action>, n: nat)
    requires IsRun(setup, run, acts) && n < |run|
    ensures Fate(run[n]) == CompletedBudget <==> exists k: nat :: k < n && LateTick(setup, acts, k)
    ensures run[n].status == CompletedBudget ==> exists k: nat :: k < n && LateTick(setup, acts, k)
    ensures run[n].phase.Ended? && (exists k: nat :: k < n && LateTick(setup, acts, k)) ==> run[n].status == CompletedBudget
  {
    RunStatus(setup, run, acts, n);
    if 0 < n {
      BudgetEndsRun(setup, run, acts, n - 1);
      RunStatus(setup, run, acts, n - 1);
      assert StepAt(setup, run, acts, n - 1);
      FateStep(setup, run[n - 1], acts[n - 1]);
      assert Fate(run[n]) == CompletedBudget <==> Fate(run[n - 1]) == CompletedBudget || LateTick(setup, acts, n - 1);
    }
  }

  /** The list of a run's findings only grows. */
  lemma {:induction false} IdsOnlyGrow(setup: Setup, run: seq<State>, acts: seq<Action>, m: nat, n: nat)
    requires IsRun(setup, run, acts) && m <= n < |run|
    ensures run[m].ids <= run[n].ids
  {
    if m < n {
      IdsOnlyGrow(setup, run, acts, m, n - 1);
      assert StepAt(setup, run, acts, n - 1);
    }
  }

  // ---------------------------------------------------------------------------------------------
  // Attribution
  // ---------------------------------------------------------------------------------------------

  /** A finding of that id and run was added to the store at some time. */
  ghost predicate Logged(ops: seq<FS.Op>, id: string, runId: string) {
    exists i :: 0 <= i < |FS.Log(ops)| && FS.Log(ops)[i].id == id && FS.Log(ops)[i].runId == runId
  }

  ghost predicate LogOk(ops: seq<FS.Op>) {
    FS.DistinctIds(FS.Log(ops))
  }

  lemma LogAdd(ops: seq<FS.Op>, f: FS.Finding)
    ensures FS.Log(ops + [FS.Add(f)]) == FS.Log(ops) + [f]
  {
    assert (ops + [FS.Add(f)])[..|ops|] == ops;
  }

  lemma LogUpdate(ops: seq<FS.Op>, id: string, r: string)
    ensures FS.Log(ops + [FS.Update(id, r)]) == FS.Reproduced(FS.Log(ops), id, r)
  {
    assert (ops + [FS.Update(id, r)])[..|ops|] == ops;
  }

  lemma LoggedKept(ops: seq<FS.Op>, op: FS.Op, id: string, runId: string)
    requires Logged(ops, id, runId)
    ensures Logged(ops + [op], id, runId)
  {
    var i :| 0 <= i < |FS.Log(ops)| && FS.Log(ops)[i].id == id && FS.Log(ops)[i].runId == runId;
    match op {
      case Add(f) => LogAdd(ops, f);
      case Update(k, r) => LogUpdate(ops, k, r);
    }
    assert FS.Log(ops + [op])[i].id == id && FS.Log(ops + [op])[i].runId == runId;
  }

  /** A listing names each finding once, and only findings that were added. */
  ghost predicate ListingOk(ops: seq<FS.Op>, all: seq<FS.Finding>) {
    FS.DistinctIds(all) && forall f :: f in all ==> Logged(ops, f.id, f.runId)
  }

  lemma ListingKept(ops: seq<FS.Op>, op: FS.Op, all: seq<FS.Finding>)
    requires ListingOk(ops, all)
    ensures ListingOk(ops + [op], all)
  {
    forall f | f in all
      ensures Logged(ops + [op], f.id, f.runId)
    {
      LoggedKept(ops, op, f.id, f.runId);
    }
  }

  lemma {:induction false} InsertDistinct(f: FS.Finding, s: seq<FS.Finding>)
    requires FS.DistinctIds(s) && forall g :: g in s ==> g.id != f.id
    ensures FS.DistinctIds(FS.InsertNewest(f, s))
    ensures forall g :: g in FS.InsertNewest(f, s) <==> g == f || g in s
  {
    if s != [] && f.openedAt < s[0].openedAt {
      InsertDistinct(f, s[1..]);
      var r := FS.InsertNewest(f, s[1..]);
      forall j | 0 <= j < |r|
        ensures r[j].id != s[0].id
      {
        assert r[j] in r;
      }
    }
  }

  lemma {:induction false} SortDistinct(s: seq<FS.Finding>)
    requires FS.DistinctIds(s)
    ensures FS.DistinctIds(FS.NewestFirst(s))
  {
    if s != [] {
      SortDistinct(s[1..]);
      FS.NewestFirstSorts(s[1..]);
      InsertDistinct(s[0], FS.NewestFirst(s[1..]));
    }
  }

  lemma {:induction false} WantedDistinct(c: FS.Contents, opts: FS.ListOpts, n: nat, limit: nat)
    requires c.InRange() && n <= |c.findings| && FS.DistinctIds(c.findings)
    ensures FS.DistinctIds(FS.LastWanted(c, opts, n, limit))
  {
    if n != 0 && limit != 0 {
      var last := c.findings[n - 1];
      if c.Wanted(opts, last) {
        WantedDistinct(c, opts, n - 1, limit - 1);
        FS.WantedIn(c, opts, n - 1, limit - 1);
        var rest := FS.LastWanted(c, opts, n - 1, limit - 1);
        forall j | 0 <= j < |rest|
          ensures rest[j].id != last.id
        {
          assert rest[j] in c.findings[..n - 1];
        }
      } else {
        WantedDistinct(c, opts, n - 1, limit);
      }
    }
  }

  /** A sweep sees the whole store: the listing is exactly the last thousand findings. */
  lemma ListedIsStore(ops: seq<FS.Op>)
    requires LogOk(ops)
    ensures ListingOk(ops, Listed(ops))
    ensures forall f :: f in Listed(ops) <==> f in FS.Last(FS.Log(ops))
  {
    var c := FS.After(ops);
    var log := FS.Log(ops);
    FS.StoreIsRecentLog(ops);
    assert FS.DistinctIds(c.findings);
    WantedDistinct(c, FULL, |c.findings|, FULL.Limit());
    SortDistinct(FS.LastWanted(c, FULL, |c.findings|, FULL.Limit()));
    forall f
      ensures f in Listed(ops) <==> f in FS.Last(log)
      ensures f in Listed(ops) ==> Logged(ops, f.id, f.runId)
    {
      FS.FullListComplete(c, FULL, f);
      if f in FS.Last(log) {
        assert f in log;
        var i :| 0 <= i < |log| && log[i] == f;
        assert log[i].id == f.id && log[i].runId == f.runId;
      }
    }
  }

  // The findings on their way to the watcher, and those it has received.

  ghost function FindingsOf(queue: seq<Event>): seq<FS.Finding> {
    if queue == [] then [] else (if queue[0].FindingEvent? then [queue[0].finding] else []) + FindingsOf(queue[1..])
  }

  lemma {:induction false} FindingsAppend(queue: seq<Event>, ev: Event)
    ensures FindingsOf(queue + [ev]) == FindingsOf(queue) + if ev.FindingEvent? then [ev.finding] else []
  {
    if queue != [] {
      FindingsAppend(queue[1..], ev);
      assert (queue + [ev])[1..] == queue[1..] + [ev];
    }
  }

  ghost function Arrived(s: State): seq<FS.Finding> {
    s.delivered + if s.channel.Some? then FindingsOf(s.channel.value.queue) else []
  }

  ghost predicate Known(ops: seq<FS.Op>, f: FS.Finding) {
    Logged(ops, f.id, f.runId)
  }

  /** Each finding added is published at most once, so it reaches the watcher at most once. */
  ghost predicate BusOk(ops: seq<FS.Op>, unpublished: set<FS.Finding>, arrived: seq<FS.Finding>) {
    && (forall u, v :: u in unpublished && v in unpublished && u.id == v.id ==> u == v)
    && (forall u, f :: u in unpublished && f in arrived ==> u.id != f.id)
    && FS.DistinctIds(arrived)
    && (forall u :: u in unpublished ==> Known(ops, u))
    && (forall f :: f in arrived ==> Known(ops, f))
  }

  ghost predicate ReadersOk(s: State) {
    && (forall r :: r in s.readers ==> ListingOk(s.ops, s.readers[r]))
    && (s.phase.Sweeping? ==> ListingOk(s.ops, s.phase.seen))
  }

  ghost predicate FlowOk(s: State) {
    LogOk(s.ops) && BusOk(s.ops, s.unpublished, Arrived(s)) && ReadersOk(s)
  }

  lemma BusKept(ops: seq<FS.Op>, op: FS.Op, unpublished: set<FS.Finding>, arrived: seq<FS.Finding>)
    requires BusOk(ops, unpublished, arrived)
    ensures BusOk(ops + [op], unpublished, arrived)
  {
    forall f | f in unpublished || f in arrived
      ensures Known(ops + [op], f)
    {
      assert Known(ops, f);
      LoggedKept(ops, op, f.id, f.runId);
    }
  }

  lemma BusAdds(ops: seq<FS.Op>, unpublished: set<FS.Finding>, arrived: seq<FS.Finding>, f: FS.Finding)
    requires BusOk(ops, unpublished, arrived) && LogOk(ops + [FS.Add(f)])
    ensures BusOk(ops + [FS.Add(f)], unpublished + {f}, arrived)
  {
    BusKept(ops, FS.Add(f), unpublished, arrived);
    LogAdd(ops, f);
    var log := FS.Log(ops);
    assert FS.Log(ops + [FS.Add(f)])[|log|] == f;
    assert Known(ops + [FS.Add(f)], f);
    forall u | u in unpublished || u in arrived
      ensures u.id != f.id
    {
      assert Known(ops, u);
      var i :| 0 <= i < |log| && log[i].id == u.id && log[i].runId == u.runId;
      assert FS.Log(ops + [FS.Add(f)])[i] == log[i];
    }
  }

  lemma BusSends(ops: seq<FS.Op>, unpublished: set<FS.Finding>, arrived: seq<FS.Finding>, f: FS.Finding)
    requires BusOk(ops, unpublished, arrived) && f in unpublished
    ensures BusOk(ops, unpublished - {f}, arrived) && BusOk(ops, unpublished - {f}, arrived + [f])
  {
    assert Known(ops, f);
    forall i | 0 <= i < |arrived|
      ensures arrived[i].id != f.id
    {
      assert arrived[i] in arrived;
    }
  }

  lemma BusLess(ops: seq<FS.Op>, unpublished: set<FS.Finding>, arrived: seq<FS.Finding>, n: nat)
    requires BusOk(ops, unpublished, arrived) && n <= |arrived|
    ensures BusOk(ops, unpublished, arrived[..n])
  {
  }

  lemma OpAdded(s: State, op: FS.Op)
    requires ReadersOk(s)
    ensures ReadersOk(s.(ops := s.ops + [op]))
  {
    forall r | r in s.readers
      ensures ListingOk(s.ops + [op], s.readers[r])
    {
      ListingKept(s.ops, op, s.readers[r]);
    }
    if s.phase.Sweeping? {
      ListingKept(s.ops, op, s.phase.seen);
    }
  }

  lemma FindingsFirst(queue: seq<Event>)
    requires queue != []
    ensures FindingsOf(queue) == (if queue[0].FindingEvent? then [queue[0].finding] else []) + FindingsOf(queue[1..])
  {
  }

  lemma {:induction false} ArrivedStep(setup: Setup, s: State, a: Action)
    requires Enabled(setup, s, a)
    ensures var s' := Apply(setup, s, a);
            && (a.Publish? ==>
                  || Arrived(s') == Arrived(s)
                  || (a.ev.FindingEvent? && Arrived(s') == Arrived(s) + [a.ev.finding]))
            && (a.Subscribe? || a.CloseSet? ==> Arrived(s') == s.delivered)
            && (!a.Publish? && !a.Subscribe? && !a.CloseSet? ==> Arrived(s') == Arrived(s))
  {
    assert FindingsOf([]) == [];
    hide Missing, Listed, Matches, FindingsOf, Synced;
    if a.Publish? && s.channel.Some? {
      FindingsAppend(s.channel.value.queue, a.ev);
    } else if a.Receive? {
      FindingsFirst(s.channel.value.queue);
    }
  }

  lemma BusStep(setup: Setup, s: State, a: Action)
    requires LogOk(s.ops) && BusOk(s.ops, s.unpublished, Arrived(s)) && Enabled(setup, s, a)
    ensures var s' := Apply(setup, s, a); BusOk(s'.ops, s'.unpublished, Arrived(s'))
  {
    hide Missing, Listed, Arrived, BusOk, FS.DistinctIds, FS.Log;
    DeliveredFirst(s);
    ArrivedStep(setup, s, a);
    BusLess(s.ops, s.unpublished, Arrived(s), |s.delivered|);
    match a
    case AddFinding(f) => BusAdds(s.ops, s.unpublished, Arrived(s), f);
    case UpdateFinding(id, r) => BusKept(s.ops, FS.Update(id, r), s.unpublished, Arrived(s));
    case Publish(ev) =>
      if ev.FindingEvent? {
        BusSends(s.ops, s.unpublished, Arrived(s), ev.finding);
      }
    case _ =>
  }

  lemma DeliveredFirst(s: State)
    ensures |s.delivered| <= |Arrived(s)| && Arrived(s)[..|s.delivered|] == s.delivered
  {
  }

  lemma ReadersStep(setup: Setup, s: State, a: Action)
    requires LogOk(s.ops) && ReadersOk(s) && Enabled(setup, s, a)
    ensures ReadersOk(Apply(setup, s, a))
  {
    hide Missing, Listed, ListingOk, FS.DistinctIds, FS.Log;
    match a
    case AddFinding(f) => OpAdded(s, FS.Add(f));
    case UpdateFinding(id, r) => OpAdded(s, FS.Update(id, r));
    case CloseList => ListedIsStore(s.ops);
    case ReadList(_) => ListedIsStore(s.ops);
    case _ =>
  }

  lemma LogStep(setup: Setup, s: State, a: Action)
    requires LogOk(s.ops) && Enabled(setup, s, a)
    ensures LogOk(Apply(setup, s, a).ops)
  {
    hide Missing, Listed, FS.Log;
    if a.UpdateFinding? {
      LogUpdate(s.ops, a.id, a.r);
    }
  }

  lemma FlowStep(setup: Setup, s: State, a: Action)
    requires FlowOk(s) && Enabled(setup, s, a)
    ensures FlowOk(Apply(setup, s, a))
  {
    hide Apply, Enabled, BusOk, LogOk, ReadersOk, Arrived;
    LogStep(setup, s, a);
    BusStep(setup, s, a);
    ReadersStep(setup, s, a);
  }

  lemma {:induction false} RunFlow(setup: Setup, run: seq<State>, acts: seq<Action>, n: nat)
    requires IsRun(setup, run, acts) && n < |run|
    ensures FlowOk(run[n])
  {
    if 0 < n {
      RunFlow(setup, run, acts, n - 1);
      assert StepAt(setup, run, acts, n - 1);
      FlowStep(setup, run[n - 1], acts[n - 1]);
    }
  }

  /** What is published reaches the watcher's buffer of 64 unless it is full, and is then lost. */
  lemma PublishedUnlessFull(setup: Setup, run: seq<State>, acts: seq<Action>, k: nat, f: FS.Finding)
    requires IsRun(setup, run, acts) && k < |acts| && acts[k] == Publish(FindingEvent(f))
    ensures var c := run[k].channel;
            && (c.Some? && |c.value.queue| < 64 ==> Arrived(run[k + 1]) == Arrived(run[k]) + [f])
            && (c.Some? && |c.value.queue| >= 64 ==> Arrived(run[k + 1]) == Arrived(run[k]))
            && (c.None? ==> Arrived(run[k + 1]) == Arrived(run[k]))
  {
    hide Missing, Listed, Matches;
    RunBuffer(setup, run, acts, k);
    assert StepAt(setup, run, acts, k);
    if run[k].channel.Some? {
      FindingsAppend(run[k].channel.value.queue, FindingEvent(f));
    }
  }

  /** The watcher subscribes with a buffer of 64, and is subscribed from its start to its end. */
  lemma {:induction false} RunBuffer(setup: Setup, run: seq<State>, acts: seq<Action>, n: nat)
    requires IsRun(setup, run, acts) && n < |run|
    ensures run[n].channel.Some? ==> run[n].channel.value.capacity == 64 && |run[n].channel.value.queue| <= 64
    ensures run[n].channel.Some? <==> setup.hasBus && !run[n].phase.Starting? && !run[n].phase.Ended?
  {
    hide Missing, Listed, Matches;
    if 0 < n {
      RunBuffer(setup, run, acts, n - 1);
      assert StepAt(setup, run, acts, n - 1);
    }
  }

  // ---------------------------------------------------------------------------------------------
  // What is listed, and how often
  // ---------------------------------------------------------------------------------------------

  ghost function Ids(fs: seq<FS.Finding>): (r: seq<string>)
    ensures |r| == |fs| && forall i :: 0 <= i < |r| ==> r[i] == fs[i].id
  {
    seq(|fs|, i requires 0 <= i < |fs| => fs[i].id)
  }

  ghost function Times(ids: seq<string>, x: string): nat {
    multiset(ids)[x]
  }

  /** The list is the deliveries and the sweeps together; a sweep never lists an id twice. */
  ghost predicate Tally(setup: Setup, s: State, x: string) {
    && Times(s.ids, x) == Times(Ids(s.delivered), x) + Times(s.swept, x)
    && Times(s.swept, x) <= 1
    && (x in s.swept ==> Logged(s.ops, x, setup.id))
  }

  lemma {:induction false} DistinctTimes(fs: seq<FS.Finding>, x: string)
    requires FS.DistinctIds(fs)
    ensures Times(Ids(fs), x) <= 1
  {
    if fs != [] {
      var n := |fs| - 1;
      DistinctTimes(fs[..n], x);
      assert Ids(fs) == Ids(fs[..n]) + [fs[n].id];
      if x == fs[n].id {
        assert x !in Ids(fs[..n]);
      }
    }
  }

  lemma {:induction false} MissingTimes(ids: seq<string>, runId: string, all: seq<FS.Finding>, x: string)
    requires FS.DistinctIds(all)
    ensures Times(Missing(ids, runId, all), x) <= 1
  {
    if all != [] {
      var n := |all| - 1;
      MissingTimes(ids, runId, all[..n], x);
      if x == all[n].id {
        MissingIs(ids, runId, all[..n], x);
        assert x !in Missing(ids, runId, all[..n]);
      }
    }
  }

  lemma SweepTally(setup: Setup, s: State, all: seq<FS.Finding>, x: string)
    requires Tally(setup, s, x) && ListingOk(s.ops, all)
    ensures Tally(setup, Swept(setup, s, all), x)
    ensures Times(Swept(setup, s, all).ids, x) == Times(s.ids, x) || (Times(s.ids, x) == 0 && Times(Swept(setup, s, all).ids, x) == 1)
  {
    hide Logged;
    MissingTimes(s.ids, setup.id, all, x);
    MissingIs(s.ids, setup.id, all, x);
    if x in Missing(s.ids, setup.id, all) {
      assert Times(s.ids, x) == 0;
      var f :| f in all && f.runId == setup.id && f.id == x;
      assert Logged(s.ops, f.id, f.runId);
    }
  }

  ghost predicate Redelivery(setup: Setup, s: State, a: Action, x: string) {
    && a.Receive? && s.channel.Some? && s.channel.value.queue != []
    && s.channel.value.queue[0].FindingEvent? && s.channel.value.queue[0].finding.id == x && x in s.ids
  }

  ghost predicate Quiet(a: Action) {
    !a.Receive? && !a.CloseSync? && !a.ReadSync?
  }

  /** Only a delivery and a sweep touch the list. */
  lemma QuietKeeps(setup: Setup, s: State, a: Action)
    requires Enabled(setup, s, a) && Quiet(a)
    ensures var s' := Apply(setup, s, a);
            && s'.ids == s.ids && s'.delivered == s.delivered && s'.swept == s.swept
            && (s'.ops == s.ops || exists op :: s'.ops == s.ops + [op])
  {
    hide Missing, Listed, Matches;
  }

  lemma QuietTally(setup: Setup, s: State, a: Action, x: string)
    requires Tally(setup, s, x) && Enabled(setup, s, a) && Quiet(a)
    ensures Tally(setup, Apply(setup, s, a), x)
  {
    hide Logged, Apply, Enabled;
    QuietKeeps(setup, s, a);
    var s' := Apply(setup, s, a);
    if x in s.swept && s'.ops != s.ops {
      var op :| s'.ops == s.ops + [op];
      LoggedKept(s.ops, op, x, setup.id);
    }
  }

  lemma DeliveryTally(setup: Setup, s: State, a: Action, x: string)
    requires Tally(setup, s, x) && Enabled(setup, s, a) && a.Receive?
    ensures Tally(setup, Apply(setup, s, a), x)
    ensures Times(Apply(setup, s, a).ids, x) == Times(s.ids, x) +
              var ev := s.channel.value.queue[0]; if ev.FindingEvent? && ev.finding.id == x then 1 else 0
  {
    hide Logged, Missing, Listed, Matches;
    var ev := s.channel.value.queue[0];
    if ev.FindingEvent? {
      assert Ids(s.delivered + [ev.finding]) == Ids(s.delivered) + [ev.finding.id];
    }
  }

  lemma DeliveredOnce(s: State, x: string)
    requires FlowOk(s)
    ensures Times(Ids(s.delivered), x) <= 1
  {
    BusLess(s.ops, s.unpublished, Arrived(s), |s.delivered|);
    assert Arrived(s)[..|s.delivered|] == s.delivered;
    DistinctTimes(s.delivered, x);
  }

  /** A step lists an id once more, if at all, and a second time only by delivering what is listed. */
  lemma {:induction false} TallyStep(setup: Setup, s: State, a: Action, x: string)
    requires FlowOk(s) && Tally(setup, s, x) && Enabled(setup, s, a)
    ensures Tally(setup, Apply(setup, s, a), x)
    ensures var before, after := Times(s.ids, x), Times(Apply(setup, s, a).ids, x);
            && after <= 2
            && (after == 2 <==> before == 2 || Redelivery(setup, s, a, x))
  {
    hide Logged, Missing, Listed, Matches, BusOk, Arrived, Ids;
    FlowStep(setup, s, a);
    DeliveredOnce(s, x);
    DeliveredOnce(Apply(setup, s, a), x);
    if a.Receive? {
      DeliveryTally(setup, s, a, x);
    } else if a.CloseSync? {
      SweepTally(setup, s, s.phase.seen, x);
    } else if a.ReadSync? {
      SweepTally(setup, s, s.readers[a.reader], x);
    } else {
      QuietTally(setup, s, a, x);
      QuietKeeps(setup, s, a);
    }
  }

  lemma TallyStart(setup: Setup, x: string)
    ensures Tally(setup, INITIAL, x)
  {
  }

  lemma {:induction false} RunTally(setup: Setup, run: seq<State>, acts: seq<Action>, n: nat, x: string)
    requires IsRun(setup, run, acts) && n < |run|
    ensures Tally(setup, run[n], x)
  {
    if n == 0 {
      TallyStart(setup, x);
    } else {
      hide Tally, FlowOk, Apply, Enabled;
      RunTally(setup, run, acts, n - 1, x);
      RunFlow(setup, run, acts, n - 1);
      assert StepAt(setup, run, acts, n - 1);
      TallyStep(setup, run[n - 1], acts[n - 1], x);
    }
  }

  ghost predicate RedeliveredBefore(setup: Setup, run: seq<State>, acts: seq<Action>, n: nat, x: string)
    requires n <= |acts| <= |run|
  {
    exists k: nat :: k < n && Redelivery(setup, run[k], acts[k], x)
  }

  /** An id is listed at most twice, and twice exactly when the bus delivered it to the watcher
      after a sweep had already listed it. */
  lemma {:induction false} ListedAtMostTwice(setup: Setup, run: seq<State>, acts: seq<Action>, n: nat, x: string)
    requires IsRun(setup, run, acts) && n < |run|
    ensures Times(run[n].ids, x) <= 2
    ensures Times(run[n].ids, x) == 2 <==> RedeliveredBefore(setup, run, acts, n, x)
  {
    if 0 < n {
      ListedAtMostTwice(setup, run, acts, n - 1, x);
      RunTally(setup, run, acts, n - 1, x);
      RunFlow(setup, run, acts, n - 1);
      assert StepAt(setup, run, acts, n - 1);
      TallyStep(setup, run[n - 1], acts[n - 1], x);
      if RedeliveredBefore(setup, run, acts, n, x) && !RedeliveredBefore(setup, run, acts, n - 1, x) {
        var k: nat :| k < n && Redelivery(setup, run[k], acts[k], x);
        assert k == n - 1;
      }
    }
  }

  ghost predicate DeliveredAs(fs: seq<FS.Finding>, x: string) {
    exists i :: 0 <= i < |fs| && fs[i].id == x
  }

  /** Every id listed is that of a finding that was added to the store; and one that is not this
      run's is listed exactly when the bus delivered it. */
  lemma ListedOrigin(setup: Setup, run: seq<State>, acts: seq<Action>, n: nat, x: string)
    requires IsRun(setup, run, acts) && n < |run|
    ensures x in run[n].ids ==> exists runId :: Logged(run[n].ops, x, runId)
    ensures DeliveredAs(run[n].delivered, x) ==> x in run[n].ids
    ensures !Logged(run[n].ops, x, setup.id) ==> (x in run[n].ids <==> DeliveredAs(run[n].delivered, x))
  {
    hide Logged;
    var s := run[n];
    RunTally(setup, run, acts, n, x);
    RunFlow(setup, run, acts, n);
    if DeliveredAs(s.delivered, x) {
      var i :| 0 <= i < |s.delivered| && s.delivered[i].id == x;
      assert Ids(s.delivered)[i] == x;
    }
    if x in s.ids && x !in s.swept {
      assert Times(s.ids, x) > 0;
      assert x in Ids(s.delivered);
      var i :| 0 <= i < |s.delivered| && Ids(s.delivered)[i] == x;
      assert s.delivered[i].id == x;
      DeliveredKnown(s, i);
    }
  }

  lemma DeliveredKnown(s: State, i: nat)
    requires FlowOk(s) && i < |s.delivered|
    ensures Logged(s.ops, s.delivered[i].id, s.delivered[i].runId)
  {
    hide Logged;
    assert Arrived(s)[i] == s.delivered[i] && Arrived(s)[i] in Arrived(s);
    assert Known(s.ops, s.delivered[i]);
  }

  lemma OneRun(ops: seq<FS.Op>, id: string, r: string, q: string)
    requires LogOk(ops) && Logged(ops, id, r) && Logged(ops, id, q)
    ensures r == q
  {
    var log := FS.Log(ops);
    var i :| 0 <= i < |log| && log[i].id == id && log[i].runId == r;
    var j :| 0 <= j < |log| && log[j].id == id && log[j].runId == q;
    assert i == j;
  }

  /** A run lists only findings of its own exactly when every finding delivered to it was its own. */
  lemma ListsOnlyItsOwn(setup: Setup, run: seq<State>, acts: seq<Action>, n: nat)
    requires IsRun(setup, run, acts) && n < |run|
    ensures (forall x :: x in run[n].ids ==> Logged(run[n].ops, x, setup.id))
            <==> forall i :: 0 <= i < |run[n].delivered| ==> run[n].delivered[i].runId == setup.id
  {
    hide Logged, IsRun;
    var s := run[n];
    RunFlow(setup, run, acts, n);
    if forall x :: x in s.ids ==> Logged(s.ops, x, setup.id) {
      forall i | 0 <= i < |s.delivered|
        ensures s.delivered[i].runId == setup.id
      {
        var x := s.delivered[i].id;
        ListedOrigin(setup, run, acts, n, x);
        DeliveredKnown(s, i);
        OneRun(s.ops, x, s.delivered[i].runId, setup.id);
      }
    }
    if forall i :: 0 <= i < |s.delivered| ==> s.delivered[i].runId == setup.id {
      forall x | x in s.ids
        ensures Logged(s.ops, x, setup.id)
      {
        ListedOrigin(setup, run, acts, n, x);
        if !Logged(s.ops, x, setup.id) {
          var i :| 0 <= i < |s.delivered| && s.delivered[i].id == x;
          DeliveredKnown(s, i);
          assert false;
        }
      }
    }
  }

  /** `k` is the first delivery of a kind that stop_on asks for. */
  ghost predicate FirstMatch(setup: Setup, delivered: seq<FS.Finding>, k: nat) {
    k < |delivered| && Matches(setup.stopOn, delivered[k].kind) && NoneMatches(setup, delivered[..k])
  }

  /** A run that has ended was stopped by a finding of another run exactly when the first finding
      delivered to it of a kind it stops on was tagged with another run. */
  lemma StoppedByForeign(setup: Setup, run: seq<State>, acts: seq<Action>, n: nat)
    requires IsRun(setup, run, acts) && n < |run| && run[n].phase.Ended?
    ensures var s := run[n];
            s.status == CompletedStopOn && !Logged(s.ops, s.trigger, setup.id) <==>
              exists k: nat :: FirstMatch(setup, s.delivered, k) && s.delivered[k].runId != setup.id
  {
    hide Logged, IsRun, Matches;
    var s := run[n];
    RunStatus(setup, run, acts, n);
    RunFlow(setup, run, acts, n);
    var last := |s.delivered| - 1;
    if s.status == CompletedStopOn {
      assert FirstMatch(setup, s.delivered, last);
      assert forall k: nat :: FirstMatch(setup, s.delivered, k) ==> k == last;
      DeliveredKnown(s, last);
      if Logged(s.ops, s.trigger, setup.id) {
        OneRun(s.ops, s.trigger, s.delivered[last].runId, setup.id);
      }
    }
  }

  // ---------------------------------------------------------------------------------------------
  // Sweeps miss nothing they could see
  // ---------------------------------------------------------------------------------------------

  ghost predicate AllListed(setup: Setup, ids: seq<string>, all: seq<FS.Finding>) {
    forall f :: f in all && f.runId == setup.id ==> f.id in ids
  }

  ghost predicate ClosedOk(setup: Setup, s: State) {
    && (s.phase.Setting? ==> AllListed(setup, s.ids, s.phase.seen))
    && (s.phase.Ended? ==> AllListed(setup, s.ids, s.phase.seen))
  }

  lemma SweepLists(setup: Setup, s: State, all: seq<FS.Finding>)
    ensures AllListed(setup, Swept(setup, s, all).ids, all)
  {
    forall f | f in all && f.runId == setup.id
      ensures f.id in Synced(s.ids, setup.id, all)
    {
      SyncedIs(s.ids, setup.id, all, f.id);
    }
  }

  lemma {:induction false} RunClosed(setup: Setup, run: seq<State>, acts: seq<Action>, n: nat)
    requires IsRun(setup, run, acts) && n < |run|
    ensures ClosedOk(setup, run[n])
  {
    if 0 < n {
      RunClosed(setup, run, acts, n - 1);
      assert StepAt(setup, run, acts, n - 1);
      if acts[n - 1].CloseSync? {
        SweepLists(setup, run[n - 1], run[n - 1].phase.seen);
      }
    }
  }

  ghost predicate Closing(phase: Phase, seen: seq<FS.Finding>) {
    (phase.Sweeping? || phase.Setting? || phase.Ended?) && phase.seen == seen
  }

  lemma {:induction false} SeenKept(setup: Setup, run: seq<State>, acts: seq<Action>, m: nat, n: nat, seen: seq<FS.Finding>)
    requires IsRun(setup, run, acts) && m <= n < |run| && Closing(run[m].phase, seen)
    ensures Closing(run[n].phase, seen)
  {
    hide Listed, Missing;
    if m < n {
      SeenKept(setup, run, acts, m, n - 1, seen);
      assert StepAt(setup, run, acts, n - 1);
    }
  }

  lemma CloseSees(setup: Setup, run: seq<State>, acts: seq<Action>, k: nat)
    requires IsRun(setup, run, acts) && k < |acts| && acts[k].CloseList?
    ensures Closing(run[k + 1].phase, Listed(run[k].ops))
  {
    hide Listed;
    assert StepAt(setup, run, acts, k);
  }

  /** The store holds `f`: it is among the last thousand findings added. */
  ghost predicate Stored(ops: seq<FS.Op>, f: FS.Finding) {
    f in FS.Last(FS.Log(ops))
  }

  lemma ListedAt(setup: Setup, run: seq<State>, acts: seq<Action>, k: nat, f: FS.Finding)
    requires IsRun(setup, run, acts) && k < |run| && Stored(run[k].ops, f)
    ensures f in Listed(run[k].ops)
  {
    hide Listed;
    RunFlow(setup, run, acts, k);
    ListedIsStore(run[k].ops);
  }

  /** A finished run lists every finding of its own that the store held when its closing sweep read
      it: the last thousand findings added. */
  lemma {:induction false} FinalSweepComplete(setup: Setup, run: seq<State>, acts: seq<Action>, k: nat, n: nat, f: FS.Finding)
    requires IsRun(setup, run, acts) && k < n < |run| && acts[k].CloseList? && run[n].phase.Ended?
    requires Stored(run[k].ops, f) && f.runId == setup.id
    ensures f.id in run[n].ids
  {
    assert |run| == |acts| + 1;
    hide IsRun, Listed, Stored;
    ListedAt(setup, run, acts, k, f);
    CloseSees(setup, run, acts, k);
    SeenKept(setup, run, acts, k + 1, n, Listed(run[k].ops));
    RunClosed(setup, run, acts, n);
  }

  ghost predicate Untouched(acts: seq<Action>, k: nat, n: nat, reader: int)
    requires n <= |acts|
  {
    forall j :: k < j < n ==> acts[j] != ReadList(reader) && acts[j] != ReadSync(reader)
  }

  lemma {:induction false} ListingWaits(setup: Setup, run: seq<State>, acts: seq<Action>, k: nat, n: nat, reader: int)
    requires IsRun(setup, run, acts) && k < n < |run| && acts[k] == ReadList(reader) && Untouched(acts, k, n, reader)
    ensures reader in run[n].readers && run[n].readers[reader] == Listed(run[k].ops)
  {
    hide Listed, Missing;
    assert StepAt(setup, run, acts, n - 1);
    if k + 1 < n {
      ListingWaits(setup, run, acts, k, n - 1, reader);
    }
  }

  /** `reader` lists the store at step `k` and appends what it saw at step `m`. */
  ghost predicate Reads(acts: seq<Action>, k: nat, m: nat, reader: int) {
    k < m < |acts| && acts[k] == ReadList(reader) && acts[m] == ReadSync(reader) && Untouched(acts, k, m, reader)
  }

  lemma {:induction false} ReadSweeps(setup: Setup, run: seq<State>, acts: seq<Action>, k: nat, m: nat, reader: int)
    requires IsRun(setup, run, acts) && Reads(acts, k, m, reader)
    ensures AllListed(setup, run[m + 1].ids, Listed(run[k].ops))
  {
    hide Listed, Missing, AllListed;
    ListingWaits(setup, run, acts, k, m, reader);
    assert StepAt(setup, run, acts, m);
    SweepLists(setup, run[m], Listed(run[k].ops));
  }

  lemma ReadInRun(setup: Setup, run: seq<State>, acts: seq<Action>, k: nat, m: nat, reader: int)
    requires IsRun(setup, run, acts) && Reads(acts, k, m, reader)
    ensures k < m < |acts| && |run| == |acts| + 1
  {
  }

  /** The same of a read, running or ended: a finding that arrived late is attributed by it, and
      from then on. */
  lemma {:induction false} ReadAttributesLate(setup: Setup, run: seq<State>, acts: seq<Action>,
                                              k: nat, m: nat, n: nat, reader: int, f: FS.Finding)
    requires IsRun(setup, run, acts) && Reads(acts, k, m, reader) && m < n < |run|
    requires Stored(run[k].ops, f) && f.runId == setup.id
    ensures f.id in run[n].ids
  {
    hide IsRun, StepAt, Apply, Enabled, Listed, Reads, AllListed, Stored, Untouched;
    ReadInRun(setup, run, acts, k, m, reader);
    ListedAt(setup, run, acts, k, f);
    ReadSweeps(setup, run, acts, k, m, reader);
    IdsOnlyGrow(setup, run, acts, m + 1, n);
    StaysListed(setup, run[m + 1].ids, run[n].ids, Listed(run[k].ops), f);
  }

  lemma StaysListed(setup: Setup, ids: seq<string>, later: seq<string>, all: seq<FS.Finding>, f: FS.Finding)
    requires AllListed(setup, ids, all) && ids <= later && f in all && f.runId == setup.id
    ensures f.id in later
  {
    assert f.id in ids;
    assert later == ids + later[|ids|..];
  }

  // ---------------------------------------------------------------------------------------------
  // What the watcher does not check
  // ---------------------------------------------------------------------------------------------

  lemma ListedOne(f: FS.Finding)
    ensures LogOk([FS.Add(f)]) && Listed([FS.Add(f)]) == [f]
  {
    var ops := [FS.Add(f)];
    assert FS.Log(ops) == [f] by {
      LogAdd([], f);
      assert [] + ops == ops;
    }
    ListedIsStore(ops);
    var all := Listed(ops);
    assert forall g :: g in all <==> g in [f];
    OnlyFinding(all, f);
  }

  lemma OnlyFinding(all: seq<FS.Finding>, f: FS.Finding)
    requires FS.DistinctIds(all) && f in all && forall g :: g in all ==> g == f
    ensures all == [f]
  {
    assert |all| < 2 || all[0].id != all[1].id;
    forall i | 0 <= i < |all|
      ensures all[i] == f
    {
      assert all[i] in all;
    }
  }

  lemma NothingMissing(ids: seq<string>, runId: string, f: FS.Finding)
    requires f.id in ids
    ensures Missing(ids, runId, [f]) == []
  {
    assert [f][..0] == [];
  }

  lemma Extend(setup: Setup, run: seq<State>, acts: seq<Action>, a: Action)
    returns (run': seq<State>, acts': seq<Action>, s: State)
    requires IsRun(setup, run, acts) && Enabled(setup, run[|acts|], a)
    ensures IsRun(setup, run', acts') && s == run'[|acts'|] == Apply(setup, run[|acts|], a)
  {
    hide Apply;
    s := Apply(setup, run[|acts|], a);
    run', acts' := run + [s], acts + [a];
    forall i: nat | i < |acts'|
      ensures StepAt(setup, run', acts', i)
    {
      if i < |acts| {
        assert StepAt(setup, run, acts, i);
      }
    }
  }

  /** A watcher that has subscribed, and a finding that has been added. */
  lemma Prelude(setup: Setup, f: FS.Finding) returns (run: seq<State>, acts: seq<Action>, s: State)
    requires setup.hasBus && f.id != ""
    ensures IsRun(setup, run, acts) && s == run[|acts|]
    ensures s == INITIAL.(phase := Watching, channel := Some(Channel(64, [])), ops := [FS.Add(f)], unpublished := {f})
  {
    run, acts := [INITIAL], [];
    run, acts, s := Extend(setup, run, acts, Subscribe);
    ListedOne(f);
    assert s.ops + [FS.Add(f)] == [FS.Add(f)];
    run, acts, s := Extend(setup, run, acts, AddFinding(f));
  }

  /** A read that sweeps a finding before the bus delivers it makes the run list it twice. */
  lemma ReadThenDeliveryListsTwice(setup: Setup, f: FS.Finding) returns (run: seq<State>, acts: seq<Action>)
    requires setup.hasBus && f.id != "" && f.runId == setup.id
    ensures IsRun(setup, run, acts) && run[|acts|].ids == [f.id, f.id]
  {
    hide IsRun, Listed, Matches;
    ListedOne(f);
    var s;
    run, acts, s := Prelude(setup, f);
    run, acts, s := Extend(setup, run, acts, ReadList(0));
    run, acts, s := Extend(setup, run, acts, ReadSync(0));
    assert s.ids == [f.id] by {
      assert [f][..0] == [];
      assert Missing([], setup.id, [f]) == [f.id];
    }
    run, acts, s := Extend(setup, run, acts, Publish(FindingEvent(f)));
    run, acts, s := Extend(setup, run, acts, Receive);
  }

  /** The watcher does not look at the run a finding is tagged with: another run's divergence is
      listed and stops this one. */
  lemma ForeignFindingStopsRun(setup: Setup, f: FS.Finding) returns (run: seq<State>, acts: seq<Action>)
    requires setup.hasBus && f.id != "" && f.runId != setup.id && Matches(setup.stopOn, f.kind)
    ensures IsRun(setup, run, acts)
    ensures var s := run[|acts|]; s.status == CompletedStopOn && s.trigger == f.id && s.ids == [f.id]
  {
    hide IsRun, Listed, Matches, Missing;
    ListedOne(f);
    var s;
    run, acts, s := Prelude(setup, f);
    run, acts, s := Extend(setup, run, acts, Publish(FindingEvent(f)));
    run, acts, s := Extend(setup, run, acts, Receive);
    run, acts, s := Extend(setup, run, acts, CloseList);
    NothingMissing(s.ids, setup.id, f);
    run, acts, s := Extend(setup, run, acts, CloseSync);
    run, acts, s := Extend(setup, run, acts, CloseSet);
  }
}
