/** GET /v1/state/diff: the second reader of the poller's history, and its agreement with the first. */
module StateDiff {
  import opened NodePoller
  import opened DivergenceOracle
  import opened Sets
  import opened Wrappers

  /** The `at` query parameter: absent, not a number, or a number. */
  datatype At = Absent | Malformed | Number(n: int)

  datatype Response =
    | BadRequest
    | Diff(ledger: int, hashByNode: map<string, string>, diverged: bool)

  ghost predicate Disagrees(column: map<string, string>) {
    exists m, n :: m in column && n in column && column[m] != column[n]
  }

  /** Some ledger of the history was validated with two hashes. */
  ghost predicate Forked(history: History) {
    exists q :: Disagrees(Column(history, q))
  }

  ghost predicate IsFirstFork(history: History, q: int) {
    Disagrees(Column(history, q)) && forall p :: Disagrees(Column(history, p)) ==> q <= p
  }

  // ---------------------------------------------------------------------------------------------
  // The pieces
  // ---------------------------------------------------------------------------------------------

  /** How many nodes have their tip at `q`. */
  ghost function Support(tips: seq<Node>, q: int): nat {
    if tips == [] then 0
    else
      var tip := tips[|tips| - 1].validated;
      Support(tips[..|tips| - 1], q) + if tip.Some? && 0 < tip.value.number == q then 1 else 0
  }

  /** `best` is the ledger most tips are at, the highest of several; 0 when no tip is known. */
  ghost predicate IsModal(tips: seq<Node>, best: int) {
    if best == 0 then forall q :: Support(tips, q) == 0
    else
      && 0 < Support(tips, best)
      && forall q :: Support(tips, q) < Support(tips, best) || (Support(tips, q) == Support(tips, best) && q <= best)
  }

  lemma ModalUnique(tips: seq<Node>, a: int, b: int)
    requires IsModal(tips, a) && IsModal(tips, b)
    ensures a == b
  {
    assert Support(tips, a) == 0 || Support(tips, a) > 0;
    assert Support(tips, b) == 0 || Support(tips, b) > 0;
  }

  lemma {:induction false} SupportPositive(tips: seq<Node>, q: int)
    requires q <= 0
    ensures Support(tips, q) == 0
  {
    if tips != [] {
      SupportPositive(tips[..|tips| - 1], q);
    }
  }

  method PickSeq(tips: seq<Node>) returns (best: int)
    ensures IsModal(tips, best) && 0 <= best
  {
    var counts: map<int, nat> := map[];
    for i := 0 to |tips|
      invariant forall q :: Support(tips[..i], q) == if q in counts then counts[q] else 0
      invariant forall q :: q in counts ==> 0 < q && 0 < counts[q]
    {
      assert tips[..i + 1][..i] == tips[..i];
      var tip := tips[i].validated;
      if tip.Some? && 0 < tip.value.number {
        var q := tip.value.number;
        counts := counts[q := (if q in counts then counts[q] else 0) + 1];
      }
    }
    assert tips[..|tips|] == tips;
    best := 0;
    var bestCount := 0;
    var rest := counts.Keys;
    while rest != {}
      invariant rest <= counts.Keys
      invariant bestCount == (if best == 0 then 0 else Support(tips, best)) && 0 <= best
      invariant best == 0 ==> rest == counts.Keys
      invariant best != 0 ==> best in counts
      invariant forall q :: q in counts && q !in rest ==>
                  counts[q] < bestCount || (counts[q] == bestCount && q <= best)
      decreases rest
    {
      SomeMember(rest);
      var q :| q in rest;
      rest := rest - {q};
      var count := counts[q];
      if bestCount < count || (count == bestCount && best < q) {
        best, bestCount := q, count;
      }
    }
  }

  /** len(distinctHashes(m)) >= 2 */
  method TwoDistinctHashes(m: map<string, string>) returns (b: bool)
    ensures b <==> Disagrees(m)
  {
    var out: set<string> := {};
    var rest := m.Keys;
    while rest != {}
      invariant rest <= m.Keys
      invariant out == set n | n in m && n !in rest :: m[n]
      decreases rest
    {
      var n :| n in rest;
      rest := rest - {n};
      out := out + {m[n]};
    }
    b := 2 <= |out|;
    if b {
      var x, y := TwoMembers(out);
    } else if Disagrees(m) {
      var i, j :| i in m && j in m && m[i] != m[j];
      assert {m[i], m[j]} <= out;
      SubsetCount({m[i], m[j]}, out);
      assert false;
    }
  }

  method EarliestForkedSeq(bySeq: map<int, map<string, string>>)
    returns (forkSeq: int, forkHashes: map<string, string>, found: bool)
    ensures found <==> exists q :: q in bySeq && Disagrees(bySeq[q])
    ensures found ==>
              && forkSeq in bySeq && forkHashes == bySeq[forkSeq] && Disagrees(forkHashes)
              && forall q :: q in bySeq && Disagrees(bySeq[q]) ==> forkSeq <= q
  {
    forkSeq, forkHashes, found := 0, map[], false;
    var rest := bySeq.Keys;
    while rest != {}
      invariant rest <= bySeq.Keys
      invariant found <==> exists q :: q in bySeq && q !in rest && Disagrees(bySeq[q])
      invariant found ==>
                  && forkSeq in bySeq && forkHashes == bySeq[forkSeq] && Disagrees(forkHashes)
                  && forall q :: q in bySeq && q !in rest && Disagrees(bySeq[q]) ==> forkSeq <= q
      decreases rest
    {
      SomeMember(rest);
      var q :| q in rest;
      rest := rest - {q};
      var byNode := bySeq[q];
      var two := TwoDistinctHashes(byNode);
      if |byNode| < 2 {
        SmallColumnAgrees(byNode);
      } else if two && (!found || q < forkSeq) {
        forkSeq, forkHashes, found := q, byNode, true;
      }
    }
  }

  lemma SmallColumnAgrees(column: map<string, string>)
    requires |column| < 2
    ensures !Disagrees(column)
  {
    if Disagrees(column) {
      var m, n :| m in column && n in column && column[m] != column[n];
      assert {m, n} <= column.Keys;
      SubsetCount({m, n}, column.Keys);
      assert false;
    }
  }

  // ---------------------------------------------------------------------------------------------
  // The handler
  // ---------------------------------------------------------------------------------------------

  /** The live tips at ledger `q`. */
  ghost function TipsAt(names: seq<string>, nodes: map<string, Node>, q: int): map<string, string> {
    map n | n in names && n in nodes && nodes[n].validated.Some?
            && nodes[n].validated.value.number == q && nodes[n].validated.value.hash != ""
      :: nodes[n].validated.value.hash
  }

  /** What the handler answers, read off the history alone except for the one reply no history has:
      a hash reported without a ledger number, looked at when no node has a numbered tip. */
  ghost predicate Answers(at: At, tips: seq<Node>, unnumbered: map<string, string>, history: History, r: Response) {
    if at.Malformed? || (at.Number? && at.n <= 0) then r == BadRequest
    else if at.Number? then
      r == Diff(at.n, Column(history, at.n), Disagrees(Column(history, at.n)))
    else
      && r.Diff?
      && (r.diverged <==> Forked(history) || (IsModal(tips, 0) && Disagrees(unnumbered)))
      && exists best :: IsModal(tips, best) && Shows(best, unnumbered, history, r)
  }

  /** What is shown when `best` is the modal ledger: that ledger if it is forked, else the first
      forked one, else the modal ledger after all. */
  ghost predicate Shows(best: int, unnumbered: map<string, string>, history: History, r: Response)
    requires r.Diff?
  {
    if best != 0 && Disagrees(Column(history, best)) then
      r.ledger == best && r.hashByNode == Column(history, best)
    else if best == 0 && Disagrees(unnumbered) then
      r.ledger == 0 && r.hashByNode == unnumbered
    else if Forked(history) then
      IsFirstFork(history, r.ledger) && r.hashByNode == Column(history, r.ledger)
    else
      r.ledger == best && r.hashByNode == if best == 0 then unnumbered else Column(history, best)
  }

  // The same, said on the poller's own fields.

  /** Two nodes validated ledger `q` with different hashes. */
  ghost predicate ForkAt(history: History, q: int) {
    exists m, n :: m in history && n in history && q in history[m] && q in history[n] && history[m][q] != history[n][q]
  }

  /** `shown` gives each node that validated `q` with its hash, and no other. */
  ghost predicate ShowsLedger(history: History, q: int, shown: map<string, string>) {
    && (forall n :: n in shown <==> n in history && q in history[n])
    && (forall n :: n in shown ==> shown[n] == history[n][q])
  }

  /** The places in the configuration of the nodes whose tip is at `q`. */
  ghost function TipHolders(names: seq<string>, nodes: map<string, Node>, q: int): set<int> {
    set i | 0 <= i < |names| && names[i] in nodes && nodes[names[i]].validated.Some?
            && nodes[names[i]].validated.value.number == q
  }

  /** Most nodes have their tip at `best`, and no higher ledger has as many. */
  ghost predicate IsTopTip(names: seq<string>, nodes: map<string, Node>, best: int) {
    && 0 < best && TipHolders(names, nodes, best) != {}
    && (forall q :: best < q ==> |TipHolders(names, nodes, q)| < |TipHolders(names, nodes, best)|)
    && (forall q :: 0 < q <= best ==> |TipHolders(names, nodes, q)| <= |TipHolders(names, nodes, best)|)
  }

  ghost predicate NoTip(names: seq<string>, nodes: map<string, Node>) {
    forall q :: 0 < q ==> TipHolders(names, nodes, q) == {}
  }

  /** Node `n` reported hash `h` without a ledger number. */
  ghost predicate ReportsUnnumbered(names: seq<string>, nodes: map<string, Node>, n: string, h: string) {
    n in names && n in nodes && h != "" && nodes[n].validated == Some(LedgerRef(0, h))
  }

  ghost predicate UnnumberedDisagree(names: seq<string>, nodes: map<string, Node>) {
    exists m, n, g, h :: ReportsUnnumbered(names, nodes, m, g) && ReportsUnnumbered(names, nodes, n, h) && g != h
  }

  /** The answer to each request. Without `at`: the top tip if it is forked or nothing is; else the
      first fork; and when no node has a numbered tip, the unnumbered hashes if they disagree or
      nothing is forked. */
  ghost predicate AnswersPoller(at: At, names: seq<string>, nodes: map<string, Node>, history: History, r: Response) {
    match at
    case Malformed => r == BadRequest
    case Number(q) =>
      if q <= 0 then r == BadRequest
      else r.Diff? && r.ledger == q && ShowsLedger(history, q, r.hashByNode) && (r.diverged <==> ForkAt(history, q))
    case Absent =>
      && r.Diff?
      && (r.diverged <==> (exists q :: ForkAt(history, q)) || (NoTip(names, nodes) && UnnumberedDisagree(names, nodes)))
      && (forall best :: IsTopTip(names, nodes, best) && (ForkAt(history, best) || forall q :: !ForkAt(history, q)) ==>
            r.ledger == best && ShowsLedger(history, best, r.hashByNode))
      && (forall best :: IsTopTip(names, nodes, best) && !ForkAt(history, best) && r.diverged ==> ShowsFirstFork(history, r))
      && (NoTip(names, nodes) && (UnnumberedDisagree(names, nodes) || forall q :: !ForkAt(history, q)) ==>
            r.ledger == 0
            && (forall n, h :: n in r.hashByNode && r.hashByNode[n] == h <==> ReportsUnnumbered(names, nodes, n, h)))
      && (NoTip(names, nodes) && !UnnumberedDisagree(names, nodes) && r.diverged ==> ShowsFirstFork(history, r))
  }

  ghost predicate ShowsFirstFork(history: History, r: Response)
    requires r.Diff?
  {
    && ForkAt(history, r.ledger) && ShowsLedger(history, r.ledger, r.hashByNode)
    && forall q :: ForkAt(history, q) ==> r.ledger <= q
  }

  lemma ColumnShows(history: History, q: int)
    ensures ShowsLedger(history, q, Column(history, q))
    ensures Disagrees(Column(history, q)) <==> ForkAt(history, q)
  {
    var c := Column(history, q);
    if ForkAt(history, q) {
      var m, n :| m in history && n in history && q in history[m] && q in history[n] && history[m][q] != history[n][q];
      assert m in c && n in c && c[m] != c[n];
    }
    if Disagrees(c) {
      var m, n :| m in c && n in c && c[m] != c[n];
      assert history[m][q] != history[n][q];
    }
  }

  /** The tips counted in order are the tips by place. */
  lemma {:induction false} SupportIsHolders(tips: seq<Node>, names: seq<string>, nodes: map<string, Node>, q: int, n: nat)
    requires |tips| == |names| && n <= |tips| && 0 < q
    requires forall i :: 0 <= i < |names| ==> names[i] in nodes && tips[i] == nodes[names[i]]
    ensures Support(tips[..n], q) == |TipHolders(names[..n], nodes, q)|
  {
    if n == 0 {
      assert TipHolders(names[..0], nodes, q) == {};
    } else {
      SupportIsHolders(tips, names, nodes, q, n - 1);
      assert tips[..n][..n - 1] == tips[..n - 1];
      var before, after := TipHolders(names[..n - 1], nodes, q), TipHolders(names[..n], nodes, q);
      var held := nodes[names[n - 1]].validated.Some? && nodes[names[n - 1]].validated.value.number == q;
      assert after == before + if held then {n - 1} else {};
    }
  }

  lemma ModalIsTop(poller: Poller, best: int)
    requires poller.Valid() && IsModal(Snapshot(poller), best)
    ensures best == 0 <==> NoTip(poller.names, poller.nodes)
    ensures forall b :: IsTopTip(poller.names, poller.nodes, b) <==> b == best && best != 0
  {
    var tips, names, nodes := Snapshot(poller), poller.names, poller.nodes;
    assert tips[..|tips|] == tips && names[..|names|] == names;
    forall q
      ensures Support(tips, q) == if 0 < q then |TipHolders(names, nodes, q)| else 0
    {
      if 0 < q {
        SupportIsHolders(tips, names, nodes, q, |tips|);
      } else {
        SupportPositive(tips, q);
      }
    }
    forall q | 0 < q
      ensures TipHolders(names, nodes, q) == {} <==> Support(tips, q) == 0
    {
    }
    assert best != 0 ==> 0 < Support(tips, best) && 0 < best;
    forall b
      ensures IsTopTip(names, nodes, b) <==> b == best && best != 0
    {
      if IsTopTip(names, nodes, b) {
        assert IsModal(tips, b);
        ModalUnique(tips, b, best);
      }
    }
  }

  lemma TipsAreUnnumbered(names: seq<string>, nodes: map<string, Node>)
    ensures forall n, h :: n in TipsAt(names, nodes, 0) && TipsAt(names, nodes, 0)[n] == h <==> ReportsUnnumbered(names, nodes, n, h)
    ensures Disagrees(TipsAt(names, nodes, 0)) <==> UnnumberedDisagree(names, nodes)
  {
    var u := TipsAt(names, nodes, 0);
    forall n, h
      ensures n in u && u[n] == h <==> ReportsUnnumbered(names, nodes, n, h)
    {
    }
    if Disagrees(u) {
      var m, n :| m in u && n in u && u[m] != u[n];
      assert ReportsUnnumbered(names, nodes, m, u[m]) && ReportsUnnumbered(names, nodes, n, u[n]);
    }
    if UnnumberedDisagree(names, nodes) {
      var m, n, g, h :| ReportsUnnumbered(names, nodes, m, g) && ReportsUnnumbered(names, nodes, n, h) && g != h;
      assert m in u && n in u && u[m] != u[n];
    }
  }

  lemma AnswerAtPoller(poller: Poller, at: At, r: Response)
    requires poller.Valid() && Answers(at, Snapshot(poller), TipsAt(poller.names, poller.nodes, 0), poller.history, r)
    ensures AnswersPoller(at, poller.names, poller.nodes, poller.history, r)
  {
    var history, names, nodes := poller.history, poller.names, poller.nodes;
    forall q
      ensures ShowsLedger(history, q, Column(history, q)) && (Disagrees(Column(history, q)) <==> ForkAt(history, q))
    {
      ColumnShows(history, q);
    }
    if at.Absent? {
      TipsAreUnnumbered(names, nodes);
      var best :| IsModal(Snapshot(poller), best) && Shows(best, TipsAt(names, nodes, 0), history, r);
      ModalIsTop(poller, best);
      if IsModal(Snapshot(poller), 0) {
        ModalUnique(Snapshot(poller), best, 0);
      }
      AbsentAnswer(names, nodes, history, best, r);
    }
  }

  lemma AbsentAnswer(names: seq<string>, nodes: map<string, Node>, history: History, best: int, r: Response)
    requires r.Diff? && Shows(best, TipsAt(names, nodes, 0), history, r)
    requires r.diverged <==> Forked(history) || (best == 0 && Disagrees(TipsAt(names, nodes, 0)))
    requires best == 0 <==> NoTip(names, nodes)
    requires forall b :: IsTopTip(names, nodes, b) <==> b == best && best != 0
    ensures AnswersPoller(Absent, names, nodes, history, r)
  {
    hide IsTopTip, NoTip, TipsAt, Disagrees, ForkAt, ShowsLedger, Column, UnnumberedDisagree, ReportsUnnumbered;
    TipsAreUnnumbered(names, nodes);
    forall q
      ensures ShowsLedger(history, q, Column(history, q)) && (Disagrees(Column(history, q)) <==> ForkAt(history, q))
    {
      ColumnShows(history, q);
    }
    assert Forked(history) <==> exists q :: ForkAt(history, q);
  }

  method Handle(poller: Poller?, at: At) returns (r: Response)
    requires poller != null ==> poller.Valid()
    ensures poller == null && !at.Malformed? && !(at.Number? && at.n <= 0) ==> r == Diff(0, map[], false)
    ensures poller == null && (at.Malformed? || (at.Number? && at.n <= 0)) ==> r == BadRequest
    ensures poller != null ==>
              Answers(at, Snapshot(poller), TipsAt(poller.names, poller.nodes, 0), poller.history, r)
    ensures poller != null ==> AnswersPoller(at, poller.names, poller.nodes, poller.history, r)
  {
    r := Decide(poller, at);
    if poller != null {
      AnswerAtPoller(poller, at, r);
    }
  }

  method Decide(poller: Poller?, at: At) returns (r: Response)
    requires poller != null ==> poller.Valid()
    ensures poller == null && !at.Malformed? && !(at.Number? && at.n <= 0) ==> r == Diff(0, map[], false)
    ensures poller == null && (at.Malformed? || (at.Number? && at.n <= 0)) ==> r == BadRequest
    ensures poller != null ==>
              Answers(at, Snapshot(poller), TipsAt(poller.names, poller.nodes, 0), poller.history, r)
  {
    if at.Malformed? || (at.Number? && at.n <= 0) {
      return BadRequest;
    }
    if poller == null {
      return Diff(0, map[], false);
    }
    var target;
    if at.Number? {
      target := at.n;
    } else {
      target := PickSeq(Snapshot(poller));
    }
    var bySeq := poller.ValidatedHashesBySeq();
    var hashByNode := SeedFromTips(poller, target);
    ghost var tips := hashByNode;
    if target in bySeq {
      hashByNode := Enrich(hashByNode, bySeq[target]);
    }
    SeedIsColumn(poller, target, hashByNode);
    var diverged := TwoDistinctHashes(hashByNode);
    if !diverged && at.Absent? {
      var forkSeq, forkHashes, ok := EarliestForkedSeq(bySeq);
      ForksListed(poller.history, bySeq);
      if ok {
        return Diff(forkSeq, forkHashes, true);
      }
    }
    r := Diff(target, hashByNode, diverged);
  }

  function Snapshot(poller: Poller): (s: seq<Node>)
    requires poller.Valid()
    reads poller
  {
    seq(|poller.names|, i requires 0 <= i < |poller.names| reads poller =>
      if poller.names[i] in poller.nodes then poller.nodes[poller.names[i]] else Node(false, Option.None, Option.None))
  }

  method SeedFromTips(poller: Poller, target: int) returns (m: map<string, string>)
    requires poller.Valid()
    ensures m == TipsAt(poller.names, poller.nodes, target)
  {
    m := map[];
    for i := 0 to |poller.names|
      invariant m == TipsAt(poller.names[..i], poller.nodes, target)
    {
      var name := poller.names[i];
      assert poller.names[..i + 1] == poller.names[..i] + [name];
      var tip := poller.nodes[name].validated;
      if tip.Some? && tip.value.number == target && tip.value.hash != "" {
        m := m[name := tip.value.hash];
      }
    }
    assert poller.names[..|poller.names|] == poller.names;
  }

  method Enrich(m: map<string, string>, column: map<string, string>) returns (r: map<string, string>)
    ensures r == column + m
  {
    r := m;
    var rest := column.Keys;
    while rest != {}
      invariant rest <= column.Keys
      invariant r == (map n | n in column && n !in rest :: column[n]) + m
      decreases rest
    {
      var n :| n in rest;
      rest := rest - {n};
      if n !in r {
        r := r[n := column[n]];
      }
    }
    assert (map n | n in column && n !in rest :: column[n]) == column;
  }

  /** The tips add nothing to the history: at a real ledger the map is the history's column. */
  lemma SeedIsColumn(poller: Poller, target: int, m: map<string, string>)
    requires poller.Valid() && 0 <= target
    requires m == Column(poller.history, target) + TipsAt(poller.names, poller.nodes, target)
    ensures target != 0 ==> m == Column(poller.history, target)
    ensures target == 0 ==> m == TipsAt(poller.names, poller.nodes, 0) && Column(poller.history, 0) == map[]
  {
    if target == 0 {
      forall n | n in poller.history
        ensures 0 !in poller.history[n]
      {
        NumbersPositive(poller.log, n);
        RetainedIsLatest(LogOf(poller.log, n), 0);
      }
    } else {
      assert TipsInHistory(poller.nodes, poller.history);
      forall n | n in TipsAt(poller.names, poller.nodes, target)
        ensures n in Column(poller.history, target)
                && Column(poller.history, target)[n] == TipsAt(poller.names, poller.nodes, target)[n]
      {
      }
    }
  }

  lemma {:induction false} NumbersPositive(log: seq<Observation>, n: string)
    requires forall i :: 0 <= i < |log| ==> log[i].ledger.Complete()
    ensures forall i :: 0 <= i < |LogOf(log, n)| ==> 0 < LogOf(log, n)[i].number
  {
    if log != [] {
      NumbersPositive(log[..|log| - 1], n);
    }
  }

  lemma ForksListed(history: History, bySeq: map<int, map<string, string>>)
    requires forall q :: q in bySeq <==> Column(history, q) != map[]
    requires forall q :: q in bySeq ==> bySeq[q] == Column(history, q)
    ensures Forked(history) <==> exists q :: q in bySeq && Disagrees(bySeq[q])
    ensures forall q :: Disagrees(Column(history, q)) <==> q in bySeq && Disagrees(bySeq[q])
  {
  }

  // ---------------------------------------------------------------------------------------------
  // The two readers
  // ---------------------------------------------------------------------------------------------

  lemma ForkConflicts(inputs: seq<Input>, history: History, q: int)
    requires Lists(inputs, history) && Disagrees(Column(history, q))
    ensures Conflict(q, HashesAt(inputs, q)) in Conflicts(inputs)
  {
    var m, n :| m in Column(history, q) && n in Column(history, q) && Column(history, q)[m] != Column(history, q)[n];
    var x, y := history[m][q], history[n][q];
    assert Input(m, q, x) in inputs && Input(n, q, y) in inputs;
    SubsetCount({x, y}, HashesAt(inputs, q));
  }

  lemma ConflictForks(inputs: seq<Input>, history: History, c: Conflict)
    requires Lists(inputs, history) && c in Conflicts(inputs)
    ensures Disagrees(Column(history, c.ledger))
  {
    var x, y := TwoMembers(c.hashes);
    var i :| 0 <= i < |inputs| && inputs[i].ledger == c.ledger && inputs[i].hash == x;
    var j :| 0 <= j < |inputs| && inputs[j].ledger == c.ledger && inputs[j].hash == y;
    assert Holds(history, inputs[i]) && Holds(history, inputs[j]);
    assert Column(history, c.ledger)[inputs[i].node] != Column(history, c.ledger)[inputs[j].node];
  }

  /** The oracle's snapshot of a history shows a conflict at exactly the ledgers that are forked. */
  lemma ConflictsAreForks(inputs: seq<Input>, history: History, q: int)
    requires Lists(inputs, history)
    ensures ConflictAtLedger(inputs, q) <==> Disagrees(Column(history, q))
  {
    if Disagrees(Column(history, q)) {
      ForkConflicts(inputs, history, q);
    }
    if c :| c in Conflicts(inputs) && c.ledger == q {
      ConflictForks(inputs, history, c);
    }
  }

  ghost predicate ConflictAtLedger(inputs: seq<Input>, q: int) {
    exists c :: c in Conflicts(inputs) && c.ledger == q
  }

  /** Read at one point, the endpoint without `at` reports a divergence exactly when the oracle's
      snapshot has a conflict, unless no node has a numbered tip and two report different hashes
      without a number; and what it names is a ledger in conflict, the lowest one if the modal
      ledger is clean. */
  lemma ReadersAgree(tips: seq<Node>, unnumbered: map<string, string>, history: History, inputs: seq<Input>, r: Response)
    requires Answers(Absent, tips, unnumbered, history, r) && Lists(inputs, history)
    ensures r.diverged <==> Conflicts(inputs) != {} || (IsModal(tips, 0) && Disagrees(unnumbered))
    ensures !(IsModal(tips, 0) && Disagrees(unnumbered)) && r.diverged ==>
              && ConflictAtLedger(inputs, r.ledger)
              && (IsModal(tips, r.ledger) || forall c :: c in Conflicts(inputs) ==> r.ledger <= c.ledger)
  {
    forall q
      ensures ConflictAtLedger(inputs, q) <==> Disagrees(Column(history, q))
    {
      ConflictsAreForks(inputs, history, q);
    }
    assert Forked(history) <==> Conflicts(inputs) != {} by {
      if Forked(history) {
        var q :| Disagrees(Column(history, q));
        assert ConflictAtLedger(inputs, q);
      }
      if c :| c in Conflicts(inputs) {
        assert ConflictAtLedger(inputs, c.ledger);
      }
    }
    var best :| IsModal(tips, best) && Shows(best, unnumbered, history, r);
    if !(IsModal(tips, 0) && Disagrees(unnumbered)) && r.diverged && r.ledger != best {
      forall c | c in Conflicts(inputs)
        ensures r.ledger <= c.ledger
      {
        assert ConflictAtLedger(inputs, c.ledger);
      }
    }
  }

  /** Two of the oracle's inputs give one ledger different hashes. */
  ghost predicate InputsDisagree(inputs: seq<Input>, q: int) {
    exists i, j :: 0 <= i < |inputs| && 0 <= j < |inputs| && inputs[i].ledger == inputs[j].ledger == q
                   && inputs[i].hash != inputs[j].hash
  }

  lemma DisagreeIsFork(inputs: seq<Input>, history: History, q: int)
    requires Lists(inputs, history)
    ensures InputsDisagree(inputs, q) <==> ForkAt(history, q)
  {
    if InputsDisagree(inputs, q) {
      var i, j :| 0 <= i < |inputs| && 0 <= j < |inputs| && inputs[i].ledger == inputs[j].ledger == q
                  && inputs[i].hash != inputs[j].hash;
      assert Holds(history, inputs[i]) && Holds(history, inputs[j]);
    }
    if ForkAt(history, q) {
      var m, n :| m in history && n in history && q in history[m] && q in history[n] && history[m][q] != history[n][q];
      var x, y := Input(m, q, history[m][q]), Input(n, q, history[n][q]);
      assert x in inputs && y in inputs;
      var i :| 0 <= i < |inputs| && inputs[i] == x;
      var j :| 0 <= j < |inputs| && inputs[j] == y;
      assert inputs[i].ledger == inputs[j].ledger == q && inputs[i].hash != inputs[j].hash;
    }
  }

  /** The two readers at one poller: its snapshot for the oracle and its answer without `at`. */
  lemma ReadersAgreeAtPoller(names: seq<string>, nodes: map<string, Node>, history: History, inputs: seq<Input>, r: Response)
    requires AnswersPoller(Absent, names, nodes, history, r) && Lists(inputs, history)
    ensures r.diverged <==> (exists q :: InputsDisagree(inputs, q)) || (NoTip(names, nodes) && UnnumberedDisagree(names, nodes))
    ensures forall best :: IsTopTip(names, nodes, best) && InputsDisagree(inputs, best) ==> r.ledger == best
    ensures forall best :: IsTopTip(names, nodes, best) && !InputsDisagree(inputs, best) && r.diverged ==>
              InputsDisagree(inputs, r.ledger) && forall q :: InputsDisagree(inputs, q) ==> r.ledger <= q
  {
    hide IsTopTip, NoTip, UnnumberedDisagree, ForkAt, InputsDisagree, ShowsLedger, Lists;
    forall q
      ensures InputsDisagree(inputs, q) <==> ForkAt(history, q)
    {
      DisagreeIsFork(inputs, history, q);
    }
  }

  ghost function Unnumbered(hash: string): Node {
    Node(true, Some(LedgerRef(0, hash)), Option.None)
  }

  method PollUnnumbered() returns (poller: Poller)
    ensures fresh(poller) && poller.Valid() && poller.names == ["a", "b"] && poller.history == map[]
    ensures poller.nodes == map["a" := Unnumbered("A"), "b" := Unnumbered("B")]
  {
    poller := new Poller(["a", "b"]);
    assert poller.nodes.Keys == {"a", "b"};
    poller.Poll("a", Some(Info(LedgerRef(0, "A"), LedgerRef(0, ""))));
    poller.Poll("b", Some(Info(LedgerRef(0, "B"), LedgerRef(0, ""))));
    assert poller.log == [];
    assert forall n :: n !in poller.history;
  }

  lemma NoNumberedTip(tips: seq<Node>)
    requires forall i :: 0 <= i < |tips| && tips[i].validated.Some? ==> tips[i].validated.value.number <= 0
    ensures IsModal(tips, 0)
  {
    forall q
      ensures Support(tips, q) == 0
    {
      NoSupport(tips, q);
    }
  }

  lemma {:induction false} NoSupport(tips: seq<Node>, q: int)
    requires forall i :: 0 <= i < |tips| && tips[i].validated.Some? ==> tips[i].validated.value.number <= 0
    ensures Support(tips, q) == 0
  {
    if tips != [] {
      NoSupport(tips[..|tips| - 1], q);
    }
  }

  lemma UnnumberedAnswer(tips: seq<Node>, unnumbered: map<string, string>, r: Response)
    requires IsModal(tips, 0) && unnumbered == map["a" := "A", "b" := "B"] && Answers(Absent, tips, unnumbered, map[], r)
    ensures r == Diff(0, unnumbered, true)
  {
    assert "a" in unnumbered && "b" in unnumbered && unnumbered["a"] != unnumbered["b"];
    var best :| IsModal(tips, best) && Shows(best, unnumbered, map[], r);
    ModalUnique(tips, best, 0);
  }

  /** The exception is reached: two nodes report different hashes without a ledger number, and the
      endpoint shows a divergence of which the oracle's snapshot has nothing. */
  method UnnumberedHashesDiverge() returns (poller: Poller, inputs: seq<Input>, r: Response)
    ensures poller.Valid() && Answers(Absent, Snapshot(poller), TipsAt(poller.names, poller.nodes, 0), poller.history, r)
    ensures Lists(inputs, poller.history) && Conflicts(inputs) == {}
    ensures r == Diff(0, map["a" := "A", "b" := "B"], true)
  {
    hide Answers, IsModal, Conflicts, Lists, TipsAt, Snapshot;
    poller := PollUnnumbered();
    inputs := poller.DivergenceSnapshot();
    r := Handle(poller, Absent);
    UnnumberedTips(poller);
    UnnumberedAnswer(Snapshot(poller), TipsAt(poller.names, poller.nodes, 0), r);
    NothingListed(inputs);
  }

  lemma UnnumberedTips(poller: Poller)
    requires poller.Valid() && poller.names == ["a", "b"]
    requires poller.nodes == map["a" := Unnumbered("A"), "b" := Unnumbered("B")]
    ensures IsModal(Snapshot(poller), 0)
    ensures TipsAt(poller.names, poller.nodes, 0) == map["a" := "A", "b" := "B"]
  {
    NoNumberedTip(Snapshot(poller));
  }

  lemma NothingListed(inputs: seq<Input>)
    requires Lists(inputs, map[])
    ensures Conflicts(inputs) == {}
  {
    if c :| c in Conflicts(inputs) {
      ConflictForks(inputs, map[], c);
      assert false;
    }
  }
}
