/** The node poller: each node's latest reply, and a bounded history of the ledgers it validated.

    `log` is the full list of validated ledgers ever reported.  It is ghost: the program keeps only
    `history`, and `Valid` says what of the log the history still knows. */
module NodePoller {
  import opened DivergenceOracle
  import opened Sets
  import opened StallOracle
  import opened Wrappers

  const MAX_VALIDATED_HISTORY_SEQS: int := 512

  datatype LedgerRef = LedgerRef(number: int, hash: string) {
    predicate Reported() {
      0 < number || hash != ""
    }

    predicate Complete() {
      0 < number && hash != ""
    }
  }

  /** A server_info reply; a ledger the node does not have is (0, ""). */
  datatype Info = Info(validated: LedgerRef, closed: LedgerRef)

  datatype Node = Node(reachable: bool, validated: Option<LedgerRef>, closed: Option<LedgerRef>)

  type NodeHistory = map<int, string>
  type History = map<string, NodeHistory>

  datatype Observation = Observation(node: string, ledger: LedgerRef)

  /** One observation enters a node's history, and ledgers at or below the cutoff leave it. */
  function Observe(h: NodeHistory, ledger: LedgerRef): NodeHistory {
    var cutoff := ledger.number - MAX_VALIDATED_HISTORY_SEQS;
    var h1 := h[ledger.number := ledger.hash];
    if cutoff <= 0 then h1 else map q | q in h1 && cutoff < q :: h1[q]
  }

  ghost function Retained(log: seq<LedgerRef>): NodeHistory {
    if log == [] then map[] else Observe(Retained(log[..|log| - 1]), log[|log| - 1])
  }

  ghost function LogOf(log: seq<Observation>, node: string): seq<LedgerRef> {
    if log == [] then []
    else
      var o := log[|log| - 1];
      LogOf(log[..|log| - 1], node) + if o.node == node then [o.ledger] else []
  }

  class Poller {
    const names: seq<string>
    var nodes: map<string, Node>
    var history: History
    ghost var log: seq<Observation>

    /** The history is exactly what the log retains, and each node's live tip is in it. */
    ghost predicate Valid()
      reads this
    {
      && (forall n :: n in names ==> n in nodes)
      && IndexesLog(history, log)
      && TipsInHistory(nodes, history)
    }

    constructor (names: seq<string>)
      ensures Valid() && this.names == names && history == map[] && log == []
      ensures forall n :: n in nodes <==> n in names
      ensures forall n :: n in nodes ==> nodes[n] == Node(false, None, None)
    {
      this.names := names;
      nodes := map n | n in names :: Node(false, None, None);
      history := map[];
      log := [];
    }

    method RecordValidated(node: string, ledger: LedgerRef)
      modifies this`history
      ensures history == old(history)[node := Observe(if node in old(history) then old(history)[node] else map[], ledger)]
    {
      var h := if node in history then history[node] else map[];
      h := h[ledger.number := ledger.hash];
      var cutoff := ledger.number - MAX_VALIDATED_HISTORY_SEQS;
      if 0 < cutoff {
        h := Prune(h, cutoff);
      }
      history := history[node := h];
    }

    /** One poll of one node.  `info` is None when server_info failed. */
    method Poll(name: string, info: Option<Info>)
      requires Valid() && name in nodes
      modifies this`nodes, this`history, this`log
      ensures Valid() && nodes.Keys == old(nodes).Keys
      ensures log == old(log) + if info.Some? && 0 < info.value.validated.number && info.value.validated.hash != ""
                                then [Observation(name, info.value.validated)] else []
      ensures nodes == old(nodes)[name :=
                match info
                case None => Node(false, None, None)
                case Some(i) =>
                  Node(true, if 0 < i.validated.number || i.validated.hash != "" then Some(i.validated) else None,
                       if 0 < i.closed.number || i.closed.hash != "" then Some(i.closed) else None)]
    {
      if info.None? {
        nodes := nodes[name := Node(false, None, None)];
        return;
      }
      var n := Node(true, None, None);
      var validated, closed := info.value.validated, info.value.closed;
      if validated.Reported() {
        n := n.(validated := Some(validated));
        if validated.Complete() {
          LogGrows(history, log, name, validated);
          TipRecorded(nodes, history, name, n, validated);
          RecordValidated(name, validated);
          log := log + [Observation(name, validated)];
        }
      }
      if closed.Reported() {
        n := n.(closed := Some(closed));
      }
      nodes := nodes[name := n];
    }

    /** One input per (node, ledger) still in the history, in no particular order. */
    method DivergenceSnapshot() returns (out: seq<Input>)
      ensures Lists(out, history)
    {
      out := [];
      var restNodes := history.Keys;
      while restNodes != {}
        invariant restNodes <= history.Keys
        invariant Lists(out, history - restNodes)
        decreases restNodes
      {
        var node :| node in restNodes;
        ghost var done := history - restNodes;
        var column := history[node];
        var rest := column.Keys;
        assert Lists(out, done[node := column - rest]) by {
          assert column - rest == map[];
        }
        while rest != {}
          invariant rest <= column.Keys
          invariant Lists(out, done[node := column - rest])
          decreases rest
        {
          SomeMember(rest);
          var q :| q in rest;
          ListOneMore(out, done[node := column - rest], node, q, column[q]);
          out := out + [Input(node, q, column[q])];
          assert (done[node := column - rest])[node := (column - rest)[q := column[q]]]
              == done[node := column - (rest - {q})] by {
            assert (column - rest)[q := column[q]] == column - (rest - {q});
          }
          rest := rest - {q};
        }
        assert column - rest == column;
        restNodes := restNodes - {node};
        assert history - restNodes == done[node := column];
      }
      assert history - restNodes == history;
    }

    /** The same observations by ledger. */
    method ValidatedHashesBySeq() returns (out: map<int, map<string, string>>)
      ensures forall q :: q in out <==> Column(history, q) != map[]
      ensures forall q :: q in out ==> out[q] == Column(history, q)
    {
      out := map[];
      var restNodes := history.Keys;
      assert forall q :: Column(history - restNodes, q) == map[];
      assert history - {} == history;
      hide Column;
      while restNodes != {}
        invariant restNodes <= history.Keys
        invariant forall q :: (if q in out then out[q] else map[]) == Column(history - restNodes, q)
        invariant forall q :: q in out ==> out[q] != map[]
        decreases restNodes
      {
        var node :| node in restNodes;
        ghost var before := out;
        out := AddColumn(out, node, history[node]);
        restNodes := restNodes - {node};
        forall q
          ensures (if q in out then out[q] else map[]) == Column(history - restNodes, q)
        {
          ColumnGrows(history, restNodes, node, q);
        }
      }
      assert history - restNodes == history;
    }

    /** One input per node that answered its last poll with some ledger. */
    method ConsensusProgressSnapshot() returns (out: seq<ProgressInput>)
      ensures DistinctNodes(out)
      ensures forall n, c, v :: ProgressInput(n, c, v) in out <==>
                && n in nodes && nodes[n].reachable && !(c == 0 && v == 0)
                && (match nodes[n].closed case Some(l) => c == l.number case None => c == 0)
                && (match nodes[n].validated case Some(l) => v == l.number case None => v == 0)
    {
      out := [];
      var rest := nodes.Keys;
      while rest != {}
        invariant rest <= nodes.Keys
        invariant DistinctNodes(out)
        invariant forall n, c, v :: ProgressInput(n, c, v) in out <==>
                    n in nodes && n !in rest && nodes[n].reachable && c == NumberOf(nodes[n].closed)
                    && v == NumberOf(nodes[n].validated) && !(c == 0 && v == 0)
        decreases rest
      {
        var n :| n in rest;
        rest := rest - {n};
        var node := nodes[n];
        if node.reachable {
          var closed, validated := NumberOf(node.closed), NumberOf(node.validated);
          if !(closed == 0 && validated == 0) {
            forall i | 0 <= i < |out|
              ensures out[i].node != n
            {
              assert ProgressInput(out[i].node, out[i].closed, out[i].validated) in out;
            }
            out := out + [ProgressInput(n, closed, validated)];
          }
        }
      }
    }
  }

  method Prune(h: NodeHistory, cutoff: int) returns (r: NodeHistory)
    ensures r == map q | q in h && cutoff < q :: h[q]
  {
    r := h;
    var rest := h.Keys;
    while rest != {}
      invariant rest <= h.Keys
      invariant r == map q | q in h && (q in rest || cutoff < q) :: h[q]
      decreases rest
    {
      SomeMember(rest);
      var q :| q in rest;
      rest := rest - {q};
      if q <= cutoff {
        r := r - {q};
      }
    }
  }

  method AddColumn(out: map<int, map<string, string>>, node: string, column: NodeHistory)
    returns (r: map<int, map<string, string>>)
    ensures forall q :: q in column ==> q in r && r[q] == (if q in out then out[q] else map[])[node := column[q]]
    ensures forall q :: q !in column ==> (q in r <==> q in out) && (q in r ==> r[q] == out[q])
  {
    r := out;
    var rest := column.Keys;
    while rest != {}
      invariant rest <= column.Keys
      invariant forall q :: q in column && q !in rest ==>
                  q in r && r[q] == (if q in out then out[q] else map[])[node := column[q]]
      invariant forall q :: q !in column || q in rest ==> (q in r <==> q in out) && (q in r ==> r[q] == out[q])
      decreases rest
    {
      SomeMember(rest);
      var q :| q in rest;
      rest := rest - {q};
      r := r[q := (if q in r then r[q] else map[])[node := column[q]]];
    }
  }

  function NumberOf(r: Option<LedgerRef>): int {
    if r.Some? then r.value.number else 0
  }

  // ---------------------------------------------------------------------------------------------
  // The history against the log
  // ---------------------------------------------------------------------------------------------

  ghost predicate IndexesLog(history: History, log: seq<Observation>) {
    && (forall i :: 0 <= i < |log| ==> log[i].ledger.Complete())
    && (forall n :: n in history <==> LogOf(log, n) != [])
    && (forall n :: n in history ==> history[n] == Retained(LogOf(log, n)))
  }

  ghost predicate TipsInHistory(nodes: map<string, Node>, history: History) {
    forall n :: n in nodes && nodes[n].validated.Some? && nodes[n].validated.value.Complete() ==>
      var tip := nodes[n].validated.value;
      n in history && tip.number in history[n] && history[n][tip.number] == tip.hash
  }

  lemma LogOfAppend(log: seq<Observation>, o: Observation, n: string)
    ensures LogOf(log + [o], n) == LogOf(log, n) + if o.node == n then [o.ledger] else []
  {
    assert (log + [o])[..|log|] == log;
  }

  lemma RetainedAppend(log: seq<LedgerRef>, ledger: LedgerRef)
    ensures Retained(log + [ledger]) == Observe(Retained(log), ledger)
  {
    assert (log + [ledger])[..|log|] == log;
  }

  lemma LogGrows(history: History, log: seq<Observation>, node: string, ledger: LedgerRef)
    requires IndexesLog(history, log) && ledger.Complete()
    ensures IndexesLog(history[node := Observe(if node in history then history[node] else map[], ledger)],
                       log + [Observation(node, ledger)])
  {
    var o := Observation(node, ledger);
    var h := if node in history then history[node] else map[];
    assert h == Retained(LogOf(log, node));
    RetainedAppend(LogOf(log, node), ledger);
    forall n
      ensures LogOf(log + [o], n) == LogOf(log, n) + if node == n then [ledger] else []
    {
      LogOfAppend(log, o, n);
    }
    var history' := history[node := Observe(h, ledger)];
    assert forall i :: 0 <= i < |log + [o]| ==> (log + [o])[i].ledger.Complete();
    forall n
      ensures n in history' <==> LogOf(log + [o], n) != []
      ensures n in history' ==> history'[n] == Retained(LogOf(log + [o], n))
    {
      if n == node {
        assert LogOf(log + [o], n) == LogOf(log, node) + [ledger];
      } else {
        assert LogOf(log + [o], n) == LogOf(log, n) + [] == LogOf(log, n);
      }
    }
  }

  lemma TipRecorded(nodes: map<string, Node>, history: History, name: string, n: Node, tip: LedgerRef)
    requires TipsInHistory(nodes, history) && n.validated == Some(tip)
    ensures forall closed :: TipsInHistory(nodes[name := n.(closed := closed)],
              history[name := Observe(if name in history then history[name] else map[], tip)])
  {
  }

  /** The last place in the log where a ledger number occurs, -1 if it does not. */
  ghost function LastAt(log: seq<LedgerRef>, q: int): (i: int)
    ensures -1 <= i < |log|
    ensures 0 <= i ==> log[i].number == q && forall j :: i < j < |log| ==> log[j].number != q
    ensures i == -1 ==> forall j :: 0 <= j < |log| ==> log[j].number != q
  {
    if log == [] then -1
    else if log[|log| - 1].number == q then |log| - 1
    else LastAt(log[..|log| - 1], q)
  }

  ghost predicate Positive(log: seq<LedgerRef>) {
    forall i :: 0 <= i < |log| ==> 0 < log[i].number
  }

  /** What the history knows of a log, in whatever order its ledgers came: a ledger is retained,
      with the last hash reported for it, until one 512 or more above it is reported. */
  lemma {:induction false} RetainedIsLatest(log: seq<LedgerRef>, q: int)
    requires Positive(log)
    ensures q in Retained(log) <==>
              0 <= LastAt(log, q)
              && forall j :: LastAt(log, q) < j < |log| ==> log[j].number < q + 512
    ensures q in Retained(log) ==> Retained(log)[q] == log[LastAt(log, q)].hash
  {
    if log != [] {
      var n := |log| - 1;
      var front := log[..n];
      RetainedIsLatest(front, q);
      assert forall j :: 0 <= j < n ==> front[j] == log[j];
      if log[n].number != q {
        assert LastAt(log, q) == LastAt(front, q);
        assert log[n].number < q + 512 || 0 > LastAt(log, q) || q !in Retained(log);
      }
    }
  }

  /** No ledger is reported 512 or more below one reported earlier. */
  ghost predicate NoDeepDrop(log: seq<LedgerRef>) {
    forall i, j :: 0 <= i < j < |log| ==> log[i].number - 512 < log[j].number
  }

  /** After `n` reports nothing is held that is 512 or more below a ledger already reported. */
  ghost predicate WindowHolds(log: seq<LedgerRef>, n: nat)
    requires n <= |log|
  {
    forall q, i :: q in Retained(log[..n]) && 0 <= i < n ==> log[i].number - 512 < q
  }

  /** The documented window (nothing older than 512 below the newest ledger is kept) holds after
      every report, exactly when no report falls 512 or more below an earlier one. */
  lemma HistoryWindow(log: seq<LedgerRef>)
    requires Positive(log)
    ensures (forall n: nat :: n <= |log| ==> WindowHolds(log, n)) <==> NoDeepDrop(log)
  {
    if NoDeepDrop(log) {
      forall n: nat | n <= |log|
        ensures WindowHolds(log, n)
      {
        ShallowWindow(log[..n]);
        assert log[..n][..n] == log[..n];
      }
    } else {
      var i, j :| 0 <= i < j < |log| && log[j].number <= log[i].number - 512;
      assert log[..j + 1][..j] == log[..j];
      assert log[j].number in Retained(log[..j + 1]);
      assert !WindowHolds(log, j + 1);
    }
  }

  lemma ShallowWindow(log: seq<LedgerRef>)
    requires Positive(log) && NoDeepDrop(log)
    ensures WindowHolds(log, |log|)
  {
    assert log[..|log|] == log;
    forall q, i | q in Retained(log) && 0 <= i < |log|
      ensures log[i].number - 512 < q
    {
      RetainedIsLatest(log, q);
      var a := LastAt(log, q);
      assert log[a].number == q;
    }
  }

  ghost function Newest(log: seq<LedgerRef>): (m: int)
    requires log != []
    ensures exists i :: 0 <= i < |log| && log[i].number == m
    ensures forall i :: 0 <= i < |log| ==> log[i].number <= m
  {
    var last := log[|log| - 1].number;
    if |log| == 1 then last
    else
      var before := Newest(log[..|log| - 1]);
      assert forall i :: 0 <= i < |log| - 1 ==> log[..|log| - 1][i] == log[i];
      if before < last then last else before
  }

  /** Then the history is the latest hash of the ledgers seen in (newest - 512, newest], and so never
      holds more than 512. */
  lemma BoundedHistory(log: seq<LedgerRef>)
    requires log != [] && Positive(log) && NoDeepDrop(log)
    ensures forall q :: q in Retained(log) <==>
              0 <= LastAt(log, q) && Newest(log) - 512 < q
    ensures forall q :: q in Retained(log) ==> Retained(log)[q] == log[LastAt(log, q)].hash && q <= Newest(log)
    ensures |Retained(log)| <= 512
  {
    var newest := Newest(log);
    var top :| 0 <= top < |log| && log[top].number == newest;
    ShallowWindow(log);
    assert log[..|log|] == log;
    forall q
      ensures q in Retained(log) <==> 0 <= LastAt(log, q) && newest - 512 < q
      ensures q in Retained(log) ==> Retained(log)[q] == log[LastAt(log, q)].hash && q <= newest
    {
      RetainedIsLatest(log, q);
      if q in Retained(log) {
        assert log[top].number - 512 < q;
      }
    }
    assert forall q :: q in Retained(log).Keys ==> newest - 512 < q <= newest;
    IntervalCount(Retained(log).Keys, newest - 512, 512);
  }

  /** In particular on a node whose ledgers never go backwards. */
  lemma OrderedHistory(log: seq<LedgerRef>)
    requires log != [] && Positive(log)
    requires forall i, j :: 0 <= i < j < |log| ==> log[i].number <= log[j].number
    ensures var newest := log[|log| - 1].number;
            forall q :: q in Retained(log) <==> 0 <= LastAt(log, q) && newest - 512 < q
    ensures forall q :: q in Retained(log) ==> Retained(log)[q] == log[LastAt(log, q)].hash
    ensures |Retained(log)| <= 512
  {
    BoundedHistory(log);
    assert Newest(log) == log[|log| - 1].number;
  }

  lemma {:induction false} IntervalCount(xs: set<int>, low: int, n: nat)
    requires forall x :: x in xs ==> low < x <= low + n
    ensures |xs| <= n
    decreases n
  {
    if 0 < n {
      IntervalCount(xs - {low + n}, low, n - 1);
    } else if xs != {} {
      SomeMember(xs);
      assert false;
    }
  }

  /** A ledger no later report is 512 or more above is retained. */
  lemma Kept(log: seq<LedgerRef>, i: nat)
    requires Positive(log) && i < |log|
    requires forall j :: i < j < |log| ==> log[j].number < log[i].number + 512
    ensures log[i].number in Retained(log)
  {
    hide Retained;
    RetainedIsLatest(log, log[i].number);
  }

  /** A deep drop can break the bound as well as the window: a node that climbs from 514 to 1025 and
      then reports ledger 1 has 513 ledgers in its history. */
  lemma UnorderedHistoryOverflows()
    ensures var log := seq(512, i => LedgerRef(514 + i, "h")) + [LedgerRef(1, "h")];
            Positive(log) && |Retained(log)| > 512
  {
    hide Retained;
    var log := seq(512, i => LedgerRef(514 + i, "h")) + [LedgerRef(1, "h")];
    assert forall i :: 0 <= i < 512 ==> log[i].number == 514 + i;
    assert log[512].number == 1;
    forall q | 514 <= q <= 1025 || q == 1
      ensures q in Retained(log)
    {
      Kept(log, if q == 1 then 512 else q - 514);
    }
    var climbed := Interval(513, 512);
    IntervalSize(513, 512);
    assert climbed + {1} <= Retained(log).Keys;
    SubsetCount(climbed + {1}, Retained(log).Keys);
  }

  ghost function Interval(low: int, n: nat): set<int> {
    if n == 0 then {} else Interval(low, n - 1) + {low + n}
  }

  lemma {:induction false} IntervalSize(low: int, n: nat)
    ensures forall x :: x in Interval(low, n) <==> low < x <= low + n
    ensures |Interval(low, n)| == n
  {
    if 0 < n {
      IntervalSize(low, n - 1);
    }
  }

  // ---------------------------------------------------------------------------------------------
  // Reading the history
  // ---------------------------------------------------------------------------------------------

  /** What each node validated at ledger `q`. */
  ghost function Column(history: History, q: int): map<string, string> {
    map n | n in history && q in history[n] :: history[n][q]
  }

  lemma ColumnGrows(history: History, rest: set<string>, node: string, q: int)
    requires node in history && node !in rest
    ensures Column(history - rest, q) ==
              if q in history[node] then Column(history - (rest + {node}), q)[node := history[node][q]]
              else Column(history - (rest + {node}), q)
  {
  }

  /** `inputs` holds each (node, ledger, hash) of the history once. */
  ghost predicate Lists(inputs: seq<Input>, history: History) {
    && (forall i :: 0 <= i < |inputs| ==> Holds(history, inputs[i]))
    && (forall n, q :: n in history && q in history[n] ==> Input(n, q, history[n][q]) in inputs)
    && (forall i, j :: 0 <= i < j < |inputs| ==> inputs[i] != inputs[j])
  }

  ghost predicate Holds(history: History, x: Input) {
    x.node in history && x.ledger in history[x.node] && history[x.node][x.ledger] == x.hash
  }

  lemma ListOneMore(inputs: seq<Input>, history: History, node: string, q: int, hash: string)
    requires Lists(inputs, history) && node in history && q !in history[node]
    ensures Lists(inputs + [Input(node, q, hash)], history[node := history[node][q := hash]])
  {
    var history' := history[node := history[node][q := hash]];
    forall n, p | n in history' && p in history'[n]
      ensures Input(n, p, history'[n][p]) in inputs + [Input(node, q, hash)]
    {
      if n in history && p in history[n] {
        assert Input(n, p, history[n][p]) in inputs;
      }
    }
  }
}
