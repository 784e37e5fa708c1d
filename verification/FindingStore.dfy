/** The finding store: the last thousand findings, with an index by id, listed newest first. */
module FindingStore {
  import opened Wrappers

  const MAX_CAPACITY := 1000

  datatype Finding = Finding(id: string, kind: string, runId: string, openedAt: int, reproducer: Option<string>)

  /** `since` and `kind` are off when empty; a limit that is not positive means 100. */
  datatype ListOpts = ListOpts(since: string, kind: string, limit: int) {
    function Limit(): (n: nat)
      ensures 0 < n <= MAX_CAPACITY
    {
      if limit <= 0 then 100 else if MAX_CAPACITY < limit then MAX_CAPACITY else limit
    }
  }

  datatype Contents = Contents(findings: seq<Finding>, byId: map<string, int>) {
    /** After the oldest finding is gone, if the store was full. */
    ghost function Evicted(): Contents {
      if MAX_CAPACITY <= |findings| then Contents(findings[1..], Reindexed(byId - {findings[0].id})) else this
    }

    ghost function Add(f: Finding): Contents {
      var c := Evicted();
      Contents(c.findings + [f], c.byId[f.id := |c.findings|])
    }

    ghost function Update(id: string, r: string): Contents {
      if id in byId && 0 <= byId[id] < |findings|
      then this.(findings := findings[byId[id] := findings[byId[id]].(reproducer := Some(r))])
      else this
    }

    /** The index names each finding once, at its place, and nothing else. */
    ghost predicate Indexed() {
      && (forall id :: id in byId ==> 0 <= byId[id] < |findings| && findings[byId[id]].id == id)
      && (forall i :: 0 <= i < |findings| ==> findings[i].id in byId && byId[findings[i].id] == i)
    }

    predicate InRange() {
      && |findings| <= MAX_CAPACITY
      && forall id :: id in byId ==> 0 <= byId[id] < |findings|
    }

    function Wanted(opts: ListOpts, f: Finding): bool
      requires InRange()
    {
      && (opts.kind == "" || f.kind == opts.kind)
      && (opts.since == "" || opts.since !in byId || findings[byId[opts.since]].openedAt < f.openedAt)
    }
  }

  ghost function Reindexed(byId: map<string, int>): map<string, int> {
    map id | id in byId :: byId[id] - 1
  }

  class Store {
    var findings: seq<Finding>
    var byId: map<string, int>

    ghost function Held(): Contents
      reads this
    {
      Contents(findings, byId)
    }

    constructor ()
      ensures Held() == Contents([], map[])
    {
      findings, byId := [], map[];
    }

    method Reindex()
      modifies this`byId
      ensures byId == Reindexed(old(byId))
    {
      var todo := byId.Keys;
      while todo != {}
        invariant todo <= byId.Keys == old(byId).Keys
        invariant forall id :: id in byId ==> byId[id] == old(byId)[id] - if id in todo then 0 else 1
        decreases todo
      {
        var id :| id in todo;
        byId := byId[id := byId[id] - 1];
        todo := todo - {id};
      }
    }

    method Add(f: Finding)
      modifies this
      ensures Held() == old(Held()).Add(f)
    {
      if |findings| >= MAX_CAPACITY {
        var oldest := findings[0];
        byId := byId - {oldest.id};
        findings := findings[1..];
        Reindex();
      }
      byId := byId[f.id := |findings|];
      findings := findings + [f];
    }

    method GetById(id: string) returns (r: Option<Finding>)
      requires Held().InRange()
      ensures r.Some? <==> id in byId
      ensures r.Some? ==> r.value == findings[byId[id]]
    {
      if id !in byId {
        return None;
      }
      r := Some(findings[byId[id]]);
    }

    method UpdateReproducer(id: string, r: string) returns (ok: bool)
      requires Held().InRange()
      modifies this
      ensures Held() == old(Held()).Update(id, r) && (ok <==> id in old(byId))
    {
      if id !in byId {
        return false;
      }
      var idx := byId[id];
      findings := findings[idx := findings[idx].(reproducer := Some(r))];
      ok := true;
    }

    method List(opts: ListOpts) returns (result: seq<Finding>)
      requires Held().InRange()
      ensures result == Answer(Held(), opts)
    {
      var limit := opts.limit;
      if limit <= 0 {
        limit := 100;
      }
      if limit > MAX_CAPACITY {
        limit := MAX_CAPACITY;
      }
      var since: Option<int> := None;
      if opts.since != "" && opts.since in byId {
        since := Some(byId[opts.since]);
      }
      ghost var c := Held();
      result := [];
      var i := |findings| - 1;
      while i >= 0 && |result| < limit
        invariant -1 <= i < |findings| && |result| <= limit
        invariant LastWanted(c, opts, |findings|, limit) == result + LastWanted(c, opts, i + 1, limit - |result|)
      {
        hide LastWanted;
        TakeLast(c, opts, i + 1, limit - |result|, result);
        var f := findings[i];
        i := i - 1;
        if opts.kind != "" && f.kind != opts.kind {
          continue;
        }
        if since.Some? && f.openedAt <= findings[since.value].openedAt {
          continue;
        }
        result := result + [f];
      }
      assert result + [] == result;
      result := NewestFirst(result);
    }
  }

  // ---------------------------------------------------------------------------------------------
  // The index
  // ---------------------------------------------------------------------------------------------

  ghost predicate Holds(findings: seq<Finding>, id: string) {
    exists i :: 0 <= i < |findings| && findings[i].id == id
  }

  lemma EvictedIndexed(c: Contents)
    requires c.Indexed()
    ensures c.Evicted().Indexed()
  {
    var d := c.Evicted();
    if MAX_CAPACITY <= |c.findings| {
      forall i | 0 <= i < |d.findings|
        ensures d.findings[i].id in d.byId && d.byId[d.findings[i].id] == i
      {
        assert d.findings[i] == c.findings[i + 1];
      }
    }
  }

  /** Add keeps the index exact just when the new id is not one still held after the eviction. */
  lemma AddIndexed(c: Contents, f: Finding)
    requires c.Indexed()
    ensures c.Add(f).Indexed() <==> !Holds(c.Evicted().findings, f.id)
  {
    EvictedIndexed(c);
    var e, d := c.Evicted(), c.Add(f);
    if Holds(e.findings, f.id) {
      var i :| 0 <= i < |e.findings| && e.findings[i].id == f.id;
      assert d.findings[i].id == f.id && d.byId[f.id] != i;
    } else {
      forall i | 0 <= i < |d.findings|
        ensures d.findings[i].id in d.byId && d.byId[d.findings[i].id] == i
      {
        if i < |e.findings| {
          assert d.findings[i] == e.findings[i];
        }
      }
    }
  }

  lemma AddInRange(c: Contents, f: Finding)
    requires c.InRange() && c.Indexed()
    ensures c.Add(f).InRange()
  {
    EvictedIndexed(c);
  }

  lemma UpdateIndexed(c: Contents, id: string, r: string)
    requires c.Indexed()
    ensures c.Update(id, r).Indexed()
  {
  }

  // ---------------------------------------------------------------------------------------------
  // Whole histories
  // ---------------------------------------------------------------------------------------------

  datatype Op = Add(f: Finding) | Update(id: string, r: string)

  ghost function After(ops: seq<Op>): Contents {
    if ops == [] then Contents([], map[])
    else
      var c := After(ops[..|ops| - 1]);
      match ops[|ops| - 1]
      case Add(f) => c.Add(f)
      case Update(id, r) => c.Update(id, r)
  }

  /** Every finding ever added, with its latest reproducer, and no bound. */
  ghost function Log(ops: seq<Op>): seq<Finding> {
    if ops == [] then []
    else
      var log := Log(ops[..|ops| - 1]);
      match ops[|ops| - 1]
      case Add(f) => log + [f]
      case Update(id, r) => Reproduced(log, id, r)
  }

  ghost function Reproduced(log: seq<Finding>, id: string, r: string): (s: seq<Finding>)
    ensures |s| == |log|
    ensures forall i :: 0 <= i < |s| ==> s[i] == if log[i].id == id then log[i].(reproducer := Some(r)) else log[i]
  {
    seq(|log|, i requires 0 <= i < |log| => if log[i].id == id then log[i].(reproducer := Some(r)) else log[i])
  }

  ghost predicate DistinctIds(log: seq<Finding>) {
    forall i, j :: 0 <= i < j < |log| ==> log[i].id != log[j].id
  }

  /** The last thousand of a log, or all of a shorter one. */
  ghost function Last(log: seq<Finding>): seq<Finding> {
    if |log| <= 1000 then log else log[|log| - MAX_CAPACITY..]
  }

  lemma LastAppend(log: seq<Finding>, f: Finding, c: Contents)
    requires c.findings == Last(log)
    ensures c.Add(f).findings == Last(log + [f])
  {
    if 1000 < |log| {
      assert Last(log)[1..] + [f] == Last(log + [f]);
    } else if 1000 == |log| {
      assert log[1..] + [f] == Last(log + [f]);
    }
  }

  lemma LastUpdate(log: seq<Finding>, c: Contents, id: string, r: string)
    requires c.findings == Last(log) && c.Indexed() && DistinctIds(log)
    ensures c.Update(id, r).findings == Last(Reproduced(log, id, r))
  {
    var d := c.Update(id, r);
    var s := Last(Reproduced(log, id, r));
    forall i | 0 <= i < |d.findings|
      ensures d.findings[i] == s[i]
    {
      assert c.findings[i].id in c.byId && c.byId[c.findings[i].id] == i;
    }
  }

  lemma AddRecent(log: seq<Finding>, c: Contents, f: Finding)
    requires c.findings == Last(log) && c.Indexed() && c.InRange() && DistinctIds(log + [f])
    ensures var d := c.Add(f); d.findings == Last(log + [f]) && d.Indexed() && d.InRange()
  {
    LastAppend(log, f, c);
    AddIndexed(c, f);
    AddInRange(c, f);
    if Holds(c.Evicted().findings, f.id) {
      var i :| 0 <= i < |c.Evicted().findings| && c.Evicted().findings[i].id == f.id;
      AddedIsNew(log, f, c.Evicted().findings[i]);
      assert false;
    }
  }

  lemma {:induction false} IdsKept(ops: seq<Op>)
    requires ops != [] && DistinctIds(Log(ops))
    ensures DistinctIds(Log(ops[..|ops| - 1]))
  {
    var log := Log(ops[..|ops| - 1]);
    assert forall i :: 0 <= i < |log| ==> log[i].id == Log(ops)[i].id;
  }

  /** With distinct ids, after any run the store holds the last thousand findings added, each with
      the last reproducer given for it, and the index is exact. */
  lemma {:induction false} StoreIsRecentLog(ops: seq<Op>)
    requires DistinctIds(Log(ops))
    ensures var c := After(ops);
            c.findings == Last(Log(ops)) && c.Indexed() && c.InRange()
  {
    if ops != [] {
      var front := ops[..|ops| - 1];
      IdsKept(ops);
      StoreIsRecentLog(front);
      match ops[|ops| - 1]
      case Add(f) =>
        assert Log(ops) == Log(front) + [f] && After(ops) == After(front).Add(f);
        AddRecent(Log(front), After(front), f);
      case Update(id, r) =>
        assert Log(ops) == Reproduced(Log(front), id, r) && After(ops) == After(front).Update(id, r);
        UpdateIndexed(After(front), id, r);
        LastUpdate(Log(front), After(front), id, r);
    }
  }

  lemma AddedIsNew(log: seq<Finding>, f: Finding, g: Finding)
    requires DistinctIds(log + [f]) && g in log
    ensures g.id != f.id
  {
    var i :| 0 <= i < |log| && log[i] == g;
    assert (log + [f])[i] == g && (log + [f])[|log|] == f;
  }

  /** What a lookup answers: the logged finding of that id if it is among the last thousand. */
  lemma LookupIsRecent(ops: seq<Op>, id: string)
    requires DistinctIds(Log(ops))
    ensures var c := After(ops);
            && (id in c.byId <==> Holds(Last(Log(ops)), id))
            && (id in c.byId ==> c.InRange() && c.findings[c.byId[id]] in Log(ops) && c.findings[c.byId[id]].id == id)
  {
    StoreIsRecentLog(ops);
  }

  // ---------------------------------------------------------------------------------------------
  // Listing
  // ---------------------------------------------------------------------------------------------

  /** The wanted findings among the first `n`, last added first, at most `limit` of them. */
  ghost function LastWanted(c: Contents, opts: ListOpts, n: nat, limit: nat): seq<Finding>
    requires c.InRange() && n <= |c.findings|
  {
    if n == 0 || limit == 0 then []
    else if c.Wanted(opts, c.findings[n - 1]) then [c.findings[n - 1]] + LastWanted(c, opts, n - 1, limit - 1)
    else LastWanted(c, opts, n - 1, limit)
  }

  lemma TakeLast(c: Contents, opts: ListOpts, n: nat, limit: nat, result: seq<Finding>)
    requires c.InRange() && 0 < n <= |c.findings| && 0 < limit
    ensures result + LastWanted(c, opts, n, limit)
            == if c.Wanted(opts, c.findings[n - 1])
               then result + [c.findings[n - 1]] + LastWanted(c, opts, n - 1, limit - 1)
               else result + LastWanted(c, opts, n - 1, limit)
  {
  }

  function InsertNewest(f: Finding, s: seq<Finding>): seq<Finding> {
    if s == [] || s[0].openedAt <= f.openedAt then [f] + s else [s[0]] + InsertNewest(f, s[1..])
  }

  /** The stable sort by openedAt, latest first. */
  function NewestFirst(s: seq<Finding>): seq<Finding> {
    if s == [] then [] else InsertNewest(s[0], NewestFirst(s[1..]))
  }

  ghost predicate Descending(s: seq<Finding>) {
    forall i, j :: 0 <= i < j < |s| ==> s[j].openedAt <= s[i].openedAt
  }

  /** The findings opened at `t`, in their order. */
  ghost function OpenedAt(s: seq<Finding>, t: int): seq<Finding> {
    if s == [] then [] else (if s[0].openedAt == t then [s[0]] else []) + OpenedAt(s[1..], t)
  }

  lemma {:induction false} InsertDescending(f: Finding, s: seq<Finding>)
    requires Descending(s)
    ensures Descending(InsertNewest(f, s))
    ensures forall g :: g in InsertNewest(f, s) <==> g == f || g in s
  {
    if s != [] && f.openedAt < s[0].openedAt {
      InsertDescending(f, s[1..]);
      var r := InsertNewest(f, s[1..]);
      forall j | 0 <= j < |r|
        ensures r[j].openedAt <= s[0].openedAt
      {
        assert r[j] in r;
      }
    }
  }

  lemma {:induction false} InsertStable(f: Finding, s: seq<Finding>, t: int)
    ensures OpenedAt(InsertNewest(f, s), t) == (if f.openedAt == t then [f] else []) + OpenedAt(s, t)
  {
    if s != [] && f.openedAt < s[0].openedAt {
      InsertStable(f, s[1..], t);
      OpenedFirst(s[0], InsertNewest(f, s[1..]), t);
      OpenedFirst(s[0], s[1..], t);
      assert [s[0]] + s[1..] == s;
    } else {
      OpenedFirst(f, s, t);
    }
  }

  lemma OpenedFirst(f: Finding, s: seq<Finding>, t: int)
    ensures OpenedAt([f] + s, t) == (if f.openedAt == t then [f] else []) + OpenedAt(s, t)
  {
    assert ([f] + s)[1..] == s;
  }

  /** The result is in order, and findings opened at one time keep the order they had. */
  lemma {:induction false} NewestFirstSorts(s: seq<Finding>)
    ensures Descending(NewestFirst(s))
    ensures forall g :: g in NewestFirst(s) <==> g in s
    ensures |NewestFirst(s)| == |s|
    ensures forall t :: OpenedAt(NewestFirst(s), t) == OpenedAt(s, t)
  {
    if s != [] {
      NewestFirstSorts(s[1..]);
      InsertDescending(s[0], NewestFirst(s[1..]));
      InsertLength(s[0], NewestFirst(s[1..]));
      forall t
        ensures OpenedAt(NewestFirst(s), t) == OpenedAt(s, t)
      {
        InsertStable(s[0], NewestFirst(s[1..]), t);
      }
    }
  }

  lemma {:induction false} InsertLength(f: Finding, s: seq<Finding>)
    ensures |InsertNewest(f, s)| == |s| + 1
  {
    if s != [] {
      InsertLength(f, s[1..]);
    }
  }

  lemma HeadOpened(s: seq<Finding>)
    requires s != []
    ensures exists t :: OpenedAt(s, t) != []
  {
    assert OpenedAt(s, s[0].openedAt) != [];
  }

  /** Only one sequence is in order and keeps each time's findings as they were: any stable sort
      gives it. */
  lemma {:induction false} StableSortUnique(r: seq<Finding>, s: seq<Finding>)
    requires Descending(r) && Descending(s) && forall t :: OpenedAt(r, t) == OpenedAt(s, t)
    ensures r == s
  {
    if r == [] || s == [] {
      if r != [] {
        HeadOpened(r);
        assert false;
      }
      if s != [] {
        HeadOpened(s);
        assert false;
      }
    } else {
      assert OpenedAt(r, r[0].openedAt) == OpenedAt(s, r[0].openedAt);
      assert OpenedAt(r, s[0].openedAt) == OpenedAt(s, s[0].openedAt);
      OpenedMember(r, s[0].openedAt);
      OpenedMember(s, r[0].openedAt);
      assert r[0].openedAt == s[0].openedAt;
      assert r[0] == OpenedAt(r, r[0].openedAt)[0] == s[0];
      forall t
        ensures OpenedAt(r[1..], t) == OpenedAt(s[1..], t)
      {
        assert OpenedAt(r, t) == OpenedAt(s, t);
        assert OpenedAt(r[1..], t) == if r[0].openedAt == t then OpenedAt(r, t)[1..] else OpenedAt(r, t);
        assert OpenedAt(s[1..], t) == if s[0].openedAt == t then OpenedAt(s, t)[1..] else OpenedAt(s, t);
      }
      StableSortUnique(r[1..], s[1..]);
    }
  }

  lemma {:induction false} OpenedMember(s: seq<Finding>, t: int)
    requires OpenedAt(s, t) != []
    ensures exists i :: 0 <= i < |s| && s[i].openedAt == t
  {
    if s[0].openedAt != t {
      OpenedMember(s[1..], t);
      var i :| 0 <= i < |s[1..]| && s[1..][i].openedAt == t;
      assert s[i + 1].openedAt == t;
    }
  }

  /** With room for every finding held, List loses none: it answers exactly the wanted ones. */
  lemma {:induction false} WantedComplete(c: Contents, opts: ListOpts, n: nat, limit: nat, f: Finding)
    requires c.InRange() && n <= |c.findings| && n <= limit
    ensures f in LastWanted(c, opts, n, limit) <==> f in c.findings[..n] && c.Wanted(opts, f)
  {
    if n != 0 {
      assert c.findings[..n] == c.findings[..n - 1] + [c.findings[n - 1]];
      if c.Wanted(opts, c.findings[n - 1]) {
        WantedComplete(c, opts, n - 1, limit - 1, f);
      } else {
        WantedComplete(c, opts, n - 1, limit, f);
      }
    }
  }

  /** A limit of the store's capacity leaves nothing out. */
  lemma FullListComplete(c: Contents, opts: ListOpts, f: Finding)
    requires c.InRange() && opts.limit == 1000
    ensures f in NewestFirst(LastWanted(c, opts, |c.findings|, opts.Limit())) <==> f in c.findings && c.Wanted(opts, f)
  {
    NewestFirstSorts(LastWanted(c, opts, |c.findings|, opts.Limit()));
    WantedComplete(c, opts, |c.findings|, opts.Limit(), f);
    assert c.findings[..|c.findings|] == c.findings;
  }

  /** The wanted findings were added in the order they opened. */
  ghost predicate WantedAscending(c: Contents, opts: ListOpts)
    requires c.InRange()
  {
    forall i, j :: 0 <= i < j < |c.findings| && c.Wanted(opts, c.findings[i]) && c.Wanted(opts, c.findings[j]) ==>
      c.findings[i].openedAt <= c.findings[j].openedAt
  }

  lemma {:induction false} WantedIn(c: Contents, opts: ListOpts, n: nat, limit: nat)
    requires c.InRange() && n <= |c.findings|
    ensures forall f :: f in LastWanted(c, opts, n, limit) ==> f in c.findings[..n] && c.Wanted(opts, f)
    ensures |LastWanted(c, opts, n, limit)| <= limit
  {
    if n != 0 && limit != 0 {
      assert c.findings[..n] == c.findings[..n - 1] + [c.findings[n - 1]];
      if c.Wanted(opts, c.findings[n - 1]) {
        WantedIn(c, opts, n - 1, limit - 1);
      } else {
        WantedIn(c, opts, n - 1, limit);
      }
    }
  }

  lemma {:induction false} WantedDescending(c: Contents, opts: ListOpts, n: nat, limit: nat)
    requires c.InRange() && n <= |c.findings| && WantedAscending(c, opts)
    ensures Descending(LastWanted(c, opts, n, limit))
  {
    if n != 0 && limit != 0 {
      if c.Wanted(opts, c.findings[n - 1]) {
        WantedDescending(c, opts, n - 1, limit - 1);
        WantedIn(c, opts, n - 1, limit - 1);
        var rest := LastWanted(c, opts, n - 1, limit - 1);
        forall j | 0 <= j < |rest|
          ensures rest[j].openedAt <= c.findings[n - 1].openedAt
        {
          assert rest[j] in c.findings[..n - 1] && c.Wanted(opts, rest[j]);
          var i :| 0 <= i < n - 1 && c.findings[i] == rest[j];
        }
      } else {
        WantedDescending(c, opts, n - 1, limit);
      }
    }
  }

  /** What List answers. */
  ghost function Answer(c: Contents, opts: ListOpts): seq<Finding>
    requires c.InRange()
  {
    NewestFirst(LastWanted(c, opts, |c.findings|, opts.Limit()))
  }

  /** No wanted finding left out of the answer is later than one that is in it. */
  ghost predicate AnswersNewest(c: Contents, opts: ListOpts)
    requires c.InRange()
  {
    forall f, g :: f in c.findings && c.Wanted(opts, f) && f !in Answer(c, opts) && g in Answer(c, opts) ==>
      f.openedAt <= g.openedAt
  }

  /** At every limit the answer is the newest of the wanted findings: exactly when those were added
      in the order they opened. */
  lemma ListIsNewest(c: Contents, opts: ListOpts)
    requires c.InRange() && c.Indexed()
    ensures WantedAscending(c, opts) <==>
              forall limit :: 0 < limit <= 1000 ==> AnswersNewest(c, opts.(limit := limit))
  {
    hide Answer;
    if WantedAscending(c, opts) {
      forall limit | 0 < limit <= 1000
        ensures AnswersNewest(c, opts.(limit := limit))
      {
        AscendingAnswersNewest(c, opts.(limit := limit));
      }
    } else {
      var i, j :| 0 <= i < j < |c.findings| && c.Wanted(opts, c.findings[i]) && c.Wanted(opts, c.findings[j])
                  && c.findings[i].openedAt > c.findings[j].openedAt;
      var limit := CutBetween(c, opts, i, j);
      assert !AnswersNewest(c, opts.(limit := limit));
    }
  }

  lemma AscendingAnswersNewest(c: Contents, opts: ListOpts)
    requires c.InRange() && WantedAscending(c, opts)
    ensures AnswersNewest(c, opts)
    ensures Answer(c, opts) == LastWanted(c, opts, |c.findings|, opts.Limit())
  {
    var picked := LastWanted(c, opts, |c.findings|, opts.Limit());
    WantedDescending(c, opts, |c.findings|, opts.Limit());
    NewestFirstSorts(picked);
    StableSortUnique(NewestFirst(picked), picked);
    assert c.findings[..|c.findings|] == c.findings;
    forall f, g | f in c.findings && c.Wanted(opts, f) && f !in picked && g in picked
      ensures f.openedAt <= g.openedAt
    {
      LeftOutIsOlder(c, opts, |c.findings|, opts.Limit(), f, g);
    }
  }

  lemma {:induction false} LeftOutIsOlder(c: Contents, opts: ListOpts, n: nat, limit: nat, f: Finding, g: Finding)
    requires c.InRange() && n <= |c.findings| && WantedAscending(c, opts)
    requires f in c.findings[..n] && c.Wanted(opts, f) && f !in LastWanted(c, opts, n, limit)
    ensures g in LastWanted(c, opts, n, limit) ==> f.openedAt <= g.openedAt
  {
    if limit != 0 {
      var last := c.findings[n - 1];
      assert c.findings[..n] == c.findings[..n - 1] + [last];
      if c.Wanted(opts, last) {
        assert f != last;
        var i :| 0 <= i < n - 1 && c.findings[i] == f;
        assert f.openedAt <= last.openedAt;
      }
      LeftOutIsOlder(c, opts, n - 1, if c.Wanted(opts, last) then limit - 1 else limit, f, g);
    }
  }

  /** How many of the findings from `j` up to `n` are wanted. */
  ghost function WantedFrom(c: Contents, opts: ListOpts, j: nat, n: nat): nat
    requires c.InRange() && j <= n <= |c.findings|
  {
    if j == n then 0 else WantedFrom(c, opts, j, n - 1) + if c.Wanted(opts, c.findings[n - 1]) then 1 else 0
  }

  /** A limit of that many lists exactly the wanted findings from `j` on. */
  lemma {:induction false} LimitCutsAt(c: Contents, opts: ListOpts, j: nat, n: nat, f: Finding)
    requires c.InRange() && j <= n <= |c.findings|
    ensures WantedFrom(c, opts, j, n) <= n - j
    ensures f in LastWanted(c, opts, n, WantedFrom(c, opts, j, n)) <==> f in c.findings[j..n] && c.Wanted(opts, f)
  {
    if j < n {
      LimitCutsAt(c, opts, j, n - 1, f);
      assert c.findings[j..n] == c.findings[j..n - 1] + [c.findings[n - 1]];
      if c.Wanted(opts, c.findings[n - 1]) {
        assert WantedFrom(c, opts, j, n) == WantedFrom(c, opts, j, n - 1) + 1;
      } else {
        SameLast(c, opts, n, WantedFrom(c, opts, j, n));
      }
    }
  }

  lemma SameLast(c: Contents, opts: ListOpts, n: nat, limit: nat)
    requires c.InRange() && 0 < n <= |c.findings| && !c.Wanted(opts, c.findings[n - 1])
    ensures LastWanted(c, opts, n, limit) == LastWanted(c, opts, n - 1, limit)
  {
  }

  lemma CutBetween(c: Contents, opts: ListOpts, i: nat, j: nat) returns (limit: int)
    requires c.InRange() && c.Indexed() && i < j < |c.findings|
    requires c.Wanted(opts, c.findings[i]) && c.Wanted(opts, c.findings[j])
    ensures 0 < limit <= 1000
    ensures c.findings[i] !in Answer(c, opts.(limit := limit)) && c.findings[j] in Answer(c, opts.(limit := limit))
    ensures c.Wanted(opts.(limit := limit), c.findings[i])
  {
    var n := |c.findings|;
    limit := WantedFrom(c, opts, j, n);
    LimitCutsAt(c, opts, j, n, c.findings[i]);
    LimitCutsAt(c, opts, j, n, c.findings[j]);
    assert c.findings[j] == c.findings[j..n][0];
    assert forall k :: j <= k < n ==> c.findings[k].id != c.findings[i].id;
    assert c.findings[i] !in c.findings[j..n];
    WantedIn(c, opts, n, limit);
    var limited := opts.(limit := limit);
    SameWanted(c, opts, limited, n, limit);
    NewestFirstSorts(LastWanted(c, limited, n, limit));
  }

  lemma {:induction false} SameWanted(c: Contents, opts: ListOpts, other: ListOpts, n: nat, limit: nat)
    requires c.InRange() && n <= |c.findings| && other == opts.(limit := other.limit)
    ensures LastWanted(c, other, n, limit) == LastWanted(c, opts, n, limit)
  {
    if n != 0 && limit != 0 {
      SameWanted(c, opts, other, n - 1, if c.Wanted(opts, c.findings[n - 1]) then limit - 1 else limit);
    }
  }

  lemma TwoAdds(f: Finding, g: Finding)
    requires f.id != g.id
    ensures After([Add(f), Add(g)]) == Contents([f, g], map[f.id := 0, g.id := 1])
  {
    hide Reindexed;
    var ops := [Add(f), Add(g)];
    assert ops[..1] == [Add(f)] && ops[..1][..0] == [];
    assert After(ops[..1]) == Contents([f], map[f.id := 0]);
  }

  /** Two Adds in the other order reach it: a list of one leaves out the newest finding. */
  lemma ListMissesNewest(older: Finding, newer: Finding)
    requires older.openedAt < newer.openedAt && older.id != newer.id
    ensures var c := After([Add(newer), Add(older)]);
            c.Indexed() && c.InRange() && newer in c.findings && Answer(c, ListOpts("", "", 1)) == [older]
  {
    hide After;
    TwoAdds(newer, older);
    var c := Contents([newer, older], map[newer.id := 0, older.id := 1]);
    assert c.Indexed();
    var opts := ListOpts("", "", 1);
    assert LastWanted(c, opts, 1, 0) == [];
    assert LastWanted(c, opts, 2, 1) == [older];
    assert [older][1..] == [] && NewestFirst([]) == [];
    assert NewestFirst([older]) == [older];
  }

  // ---------------------------------------------------------------------------------------------
  // What a list holds, on the fields
  // ---------------------------------------------------------------------------------------------

  /** Finding number `i` has the kind asked for, if one is, and opened after the since marker, if that
      is given and held. */
  ghost predicate Passes(c: Contents, opts: ListOpts, i: nat)
    requires c.InRange() && i < |c.findings|
  {
    && (opts.kind != "" ==> c.findings[i].kind == opts.kind)
    && (opts.since != "" && opts.since in c.byId ==> c.findings[i].openedAt > c.findings[c.byId[opts.since]].openedAt)
  }

  /** `f` is held at some place from `lo` up to `hi`, and passes. */
  ghost predicate PassesBetween(c: Contents, opts: ListOpts, lo: nat, hi: nat, f: Finding)
    requires c.InRange() && hi <= |c.findings|
  {
    exists i: nat :: lo <= i < hi && c.findings[i] == f && Passes(c, opts, i)
  }

  /** Of two findings that opened together, the one added later comes first. */
  ghost predicate TiesLatestFirst(c: Contents, s: seq<Finding>) {
    forall a, b :: 0 <= a < b < |s| && s[a].openedAt == s[b].openedAt ==>
      s[a].id in c.byId && s[b].id in c.byId && c.byId[s[a].id] > c.byId[s[b].id]
  }

  /** Everything listed passes the filters. A finding that passes and is not listed means that the list
      is full, 100 when no limit is given and never more than 1000, and that all that is listed was
      added later. The latest comes first, and of findings that opened together the one added last. */
  lemma ListByFields(c: Contents, opts: ListOpts)
    requires c.InRange() && c.Indexed()
    ensures var listed, limit := Answer(c, opts), if opts.limit <= 0 then 100 else if 1000 < opts.limit then 1000 else opts.limit;
            && |listed| <= limit
            && (forall f :: f in listed ==> PassesBetween(c, opts, 0, |c.findings|, f))
            && (forall i: nat :: i < |c.findings| && Passes(c, opts, i) && c.findings[i] !in listed ==>
                  |listed| == limit && forall g :: g in listed ==> PassesBetween(c, opts, i + 1, |c.findings|, g))
            && (forall a, b :: 0 <= a < b < |listed| ==> listed[b].openedAt <= listed[a].openedAt)
            && TiesLatestFirst(c, listed)
  {
    hide Passes, LastWanted, NewestFirst;
    var n, limit := |c.findings|, opts.Limit();
    var picked := LastWanted(c, opts, n, limit);
    NewestFirstSorts(picked);
    PickedPass(c, opts, n, limit);
    forall i: nat | i < n && Passes(c, opts, i) && c.findings[i] !in picked
      ensures |picked| == limit && forall g :: g in picked ==> PassesBetween(c, opts, i + 1, n, g)
    {
      LeftOutIsEarlier(c, opts, n, limit, i);
    }
    PickedTies(c, opts, n, limit);
    SortTies(c, picked);
  }

  lemma PassesIsWanted(c: Contents, opts: ListOpts, i: nat)
    requires c.InRange() && i < |c.findings|
    ensures Passes(c, opts, i) <==> c.Wanted(opts, c.findings[i])
  {
  }

  lemma {:induction false} PickedPass(c: Contents, opts: ListOpts, n: nat, limit: nat)
    requires c.InRange() && n <= |c.findings|
    ensures |LastWanted(c, opts, n, limit)| <= limit
    ensures forall f :: f in LastWanted(c, opts, n, limit) ==> PassesBetween(c, opts, 0, n, f)
  {
    hide Passes, Contents.Wanted;
    if n != 0 && limit != 0 {
      PassesIsWanted(c, opts, n - 1);
      PickedPass(c, opts, n - 1, if c.Wanted(opts, c.findings[n - 1]) then limit - 1 else limit);
    }
  }

  lemma {:induction false} LeftOutIsEarlier(c: Contents, opts: ListOpts, n: nat, limit: nat, i: nat)
    requires c.InRange() && i < n <= |c.findings| && Passes(c, opts, i)
    requires c.findings[i] !in LastWanted(c, opts, n, limit)
    ensures |LastWanted(c, opts, n, limit)| == limit
    ensures forall g :: g in LastWanted(c, opts, n, limit) ==> PassesBetween(c, opts, i + 1, n, g)
  {
    hide Passes, Contents.Wanted;
    if limit != 0 {
      PassesIsWanted(c, opts, n - 1);
      if i < n - 1 {
        LeftOutIsEarlier(c, opts, n - 1, if c.Wanted(opts, c.findings[n - 1]) then limit - 1 else limit, i);
      }
    }
  }

  lemma {:induction false} PickedTies(c: Contents, opts: ListOpts, n: nat, limit: nat)
    requires c.InRange() && c.Indexed() && n <= |c.findings|
    ensures forall f :: f in LastWanted(c, opts, n, limit) ==> f.id in c.byId && c.byId[f.id] < n
    ensures forall a, b :: 0 <= a < b < |LastWanted(c, opts, n, limit)| ==>
              c.byId[LastWanted(c, opts, n, limit)[a].id] > c.byId[LastWanted(c, opts, n, limit)[b].id]
  {
    hide Contents.Wanted;
    if n != 0 && limit != 0 {
      PickedTies(c, opts, n - 1, if c.Wanted(opts, c.findings[n - 1]) then limit - 1 else limit);
    }
  }

  lemma {:induction false} InsertTies(c: Contents, f: Finding, s: seq<Finding>)
    requires TiesLatestFirst(c, s) && f.id in c.byId
    requires forall g :: g in s ==> g.id in c.byId && c.byId[g.id] < c.byId[f.id]
    ensures TiesLatestFirst(c, InsertNewest(f, s))
    ensures forall g :: g in InsertNewest(f, s) <==> g == f || g in s
  {
    if s != [] && f.openedAt < s[0].openedAt {
      InsertTies(c, f, s[1..]);
      var r := InsertNewest(f, s[1..]);
      forall b | 0 <= b < |r| && r[b].openedAt == s[0].openedAt
        ensures s[0].id in c.byId && r[b].id in c.byId && c.byId[s[0].id] > c.byId[r[b].id]
      {
        assert r[b] in r && r[b] in s[1..];
        var k :| 0 <= k < |s[1..]| && s[1..][k] == r[b];
        assert s[k + 1] == r[b];
      }
    }
  }

  lemma {:induction false} SortTies(c: Contents, s: seq<Finding>)
    requires forall f :: f in s ==> f.id in c.byId
    requires forall a, b :: 0 <= a < b < |s| ==> c.byId[s[a].id] > c.byId[s[b].id]
    ensures TiesLatestFirst(c, NewestFirst(s))
  {
    if s != [] {
      SortTies(c, s[1..]);
      NewestFirstSorts(s[1..]);
      forall g | g in NewestFirst(s[1..])
        ensures g.id in c.byId && c.byId[g.id] < c.byId[s[0].id]
      {
        assert g in s[1..];
      }
      InsertTies(c, s[0], NewestFirst(s[1..]));
    }
  }
}
