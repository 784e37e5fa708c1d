/** What differed in one ledger across the nodes that report it. */
module LedgerDiff {
  import opened Text
  import opened Wrappers

  datatype Tx = Tx(hash: string, kind: string, rest: string)

  datatype Roots = Roots(ledger: string, account: string, transaction: string)

  datatype Snapshot = Snapshot(node: string, roots: Roots, txs: seq<Tx>)

  /** `only` has no entry for a node with nothing of its own. */
  datatype Diff = Diff(ledger: int, snapshots: seq<Snapshot>, only: map<string, seq<string>>,
                       common: seq<string>, suspects: seq<string>, rootConflict: bool,
                       fetchErrors: map<string, string>)

  // ---------------------------------------------------------------------------------------------
  // Order of the snapshots
  // ---------------------------------------------------------------------------------------------

  /** The snapshots that were fetched. */
  ghost function Fetched(snaps: seq<Option<Snapshot>>): seq<Snapshot> {
    if snaps == [] then []
    else
      var last := snaps[|snaps| - 1];
      Fetched(snaps[..|snaps| - 1]) + if last.Some? then [last.value] else []
  }

  function InsertByNode(s: Snapshot, rest: seq<Snapshot>): seq<Snapshot> {
    if rest == [] then [s]
    else if LessEq(s.node, rest[0].node) then [s] + rest
    else [rest[0]] + InsertByNode(s, rest[1..])
  }

  function SortByNode(snaps: seq<Snapshot>): seq<Snapshot> {
    if snaps == [] then [] else InsertByNode(snaps[0], SortByNode(snaps[1..]))
  }

  ghost predicate DistinctNodes(snaps: seq<Snapshot>) {
    forall i, j :: 0 <= i < j < |snaps| ==> snaps[i].node != snaps[j].node
  }

  ghost predicate InNodeOrder(snaps: seq<Snapshot>) {
    DistinctNodes(snaps) && forall i, j :: 0 <= i < j < |snaps| ==> LessEq(snaps[i].node, snaps[j].node)
  }

  lemma {:induction false} InsertedByNode(s: Snapshot, rest: seq<Snapshot>)
    requires InNodeOrder(rest) && forall i :: 0 <= i < |rest| ==> rest[i].node != s.node
    ensures InNodeOrder(InsertByNode(s, rest))
    ensures forall t :: t in InsertByNode(s, rest) <==> t == s || t in rest
  {
    if rest != [] {
      LessEqTotal(s.node, rest[0].node);
      if LessEq(s.node, rest[0].node) {
        forall j | 1 <= j < |rest|
          ensures LessEq(s.node, rest[j].node)
        {
          LessEqTransitive(s.node, rest[0].node, rest[j].node);
        }
      } else {
        InsertedByNode(s, rest[1..]);
        var r := InsertByNode(s, rest[1..]);
        forall j | 0 <= j < |r|
          ensures LessEq(rest[0].node, r[j].node) && rest[0].node != r[j].node
        {
          assert r[j] in r;
        }
      }
    }
  }

  lemma {:induction false} SortedByNode(snaps: seq<Snapshot>)
    requires DistinctNodes(snaps)
    ensures InNodeOrder(SortByNode(snaps))
    ensures forall t :: t in SortByNode(snaps) <==> t in snaps
  {
    if snaps != [] {
      SortedByNode(snaps[1..]);
      var rest := SortByNode(snaps[1..]);
      forall i | 0 <= i < |rest|
        ensures rest[i].node != snaps[0].node
      {
        assert rest[i] in rest;
      }
      InsertedByNode(snaps[0], rest);
    }
  }

  /** Distinct nodes have one order. */
  lemma {:induction false} OneNodeOrder(r: seq<Snapshot>, s: seq<Snapshot>)
    requires InNodeOrder(r) && InNodeOrder(s) && forall t :: t in r <==> t in s
    ensures r == s
  {
    assert s != [] ==> s[0] in s;
    if r != [] {
      assert r[0] in s;
      assert s[0] in r;
      LessEqTotal(r[0].node, s[0].node);
      assert r[0] == s[0];
      forall t
        ensures t in r[1..] <==> t in s[1..]
      {
        assert t in r <==> t == r[0] || t in r[1..];
        assert t in s <==> t == s[0] || t in s[1..];
      }
      OneNodeOrder(r[1..], s[1..]);
    }
  }

  // ---------------------------------------------------------------------------------------------
  // Counting
  // ---------------------------------------------------------------------------------------------

  function Hashes(txs: seq<Tx>): set<string> {
    set tx | tx in txs :: tx.hash
  }

  /** On how many of the snapshots a transaction is. */
  ghost function Present(snaps: seq<Snapshot>, h: string): nat {
    if snaps == [] then 0
    else Present(snaps[..|snaps| - 1], h) + if h in Hashes(snaps[|snaps| - 1].txs) then 1 else 0
  }

  ghost function Transactions(snaps: seq<Snapshot>): seq<Tx> {
    if snaps == [] then [] else Transactions(snaps[..|snaps| - 1]) + snaps[|snaps| - 1].txs
  }

  /** The first transaction with a hash. */
  ghost function First(txs: seq<Tx>, h: string): Option<Tx> {
    if txs == [] then None
    else
      var before, last := First(txs[..|txs| - 1], h), txs[|txs| - 1];
      if before.Some? then before else if last.hash == h then Some(last) else None
  }

  ghost predicate OnAll(snaps: seq<Snapshot>, h: string) {
    forall i :: 0 <= i < |snaps| ==> h in Hashes(snaps[i].txs)
  }

  lemma {:induction false} PresentOnAll(snaps: seq<Snapshot>, h: string)
    ensures Present(snaps, h) <= |snaps|
    ensures Present(snaps, h) == |snaps| <==> OnAll(snaps, h)
  {
    if snaps != [] {
      var front := snaps[..|snaps| - 1];
      PresentOnAll(front, h);
      assert OnAll(snaps, h) <==> OnAll(front, h) && h in Hashes(snaps[|snaps| - 1].txs);
    }
  }

  lemma {:induction false} PresentSomewhere(snaps: seq<Snapshot>, h: string)
    ensures 0 < Present(snaps, h) <==> h in Hashes(Transactions(snaps))
  {
    if snaps != [] {
      var front := snaps[..|snaps| - 1];
      PresentSomewhere(front, h);
      HashesAppend(Transactions(front), snaps[|snaps| - 1].txs);
    }
  }

  lemma HashesAppend(a: seq<Tx>, b: seq<Tx>)
    ensures Hashes(a + b) == Hashes(a) + Hashes(b)
  {
    forall h
      ensures h in Hashes(a + b) <==> h in Hashes(a) || h in Hashes(b)
    {
      if h in Hashes(a) {
        var tx :| tx in a && tx.hash == h;
        assert tx in a + b;
      }
      if h in Hashes(b) {
        var tx :| tx in b && tx.hash == h;
        assert tx in a + b;
      }
    }
  }

  lemma FirstAppend(txs: seq<Tx>, tx: Tx, h: string)
    ensures First(txs + [tx], h) == if First(txs, h).Some? then First(txs, h) else if tx.hash == h then Some(tx) else None
  {
    assert (txs + [tx])[..|txs|] == txs;
  }

  lemma {:induction false} FirstFound(txs: seq<Tx>, h: string)
    ensures First(txs, h).Some? <==> h in Hashes(txs)
    ensures First(txs, h).Some? ==> First(txs, h).value in txs && First(txs, h).value.hash == h
  {
    if txs != [] {
      var front, last := txs[..|txs| - 1], txs[|txs| - 1];
      FirstFound(front, h);
      HashesAppend(front, [last]);
      assert txs == front + [last];
    }
  }

  datatype Tally = Tally(count: map<string, int>, rep: map<string, Tx>)

  ghost predicate CountIs(t: Tally, snaps: seq<Snapshot>, seen: set<string>, h: string) {
    var n := Present(snaps, h) + if h in seen then 1 else 0;
    (h in t.count <==> 0 < n) && (h in t.count ==> t.count[h] == n)
  }

  ghost predicate RepIs(t: Tally, txs: seq<Tx>, h: string) {
    (h in t.rep <==> First(txs, h).Some?) && (h in t.rep ==> t.rep[h] == First(txs, h).value)
  }

  /** `t` has counted all of `snaps` and, of one more snapshot, the transactions `txs`. */
  ghost predicate Counted(t: Tally, snaps: seq<Snapshot>, txs: seq<Tx>) {
    && (forall h :: CountIs(t, snaps, Hashes(txs), h))
    && (forall h :: RepIs(t, Transactions(snaps) + txs, h))
  }

  function CountTx(t: Tally, tx: Tx): Tally {
    Tally(t.count[tx.hash := (if tx.hash in t.count then t.count[tx.hash] else 0) + 1],
          if tx.hash in t.rep then t.rep else t.rep[tx.hash := tx])
  }

  lemma CountedTx(t: Tally, snaps: seq<Snapshot>, txs: seq<Tx>, tx: Tx)
    requires Counted(t, snaps, txs)
    ensures Counted(if tx.hash in Hashes(txs) then t else CountTx(t, tx), snaps, txs + [tx])
  {
    var t' := if tx.hash in Hashes(txs) then t else CountTx(t, tx);
    HashesAppend(txs, [tx]);
    forall h
      ensures CountIs(t', snaps, Hashes(txs + [tx]), h)
    {
      assert CountIs(t, snaps, Hashes(txs), h);
    }
    var all := Transactions(snaps);
    assert all + (txs + [tx]) == all + txs + [tx];
    forall h
      ensures RepIs(t', all + (txs + [tx]), h)
    {
      assert RepIs(t, all + txs, h);
      FirstAppend(all + txs, tx, h);
      if tx.hash in Hashes(txs) {
        FirstFound(all + txs, tx.hash);
        HashesAppend(all, txs);
      }
    }
  }

  lemma CountedSnapshot(t: Tally, snaps: seq<Snapshot>, s: Snapshot)
    requires Counted(t, snaps, s.txs)
    ensures Counted(t, snaps + [s], [])
  {
    assert (snaps + [s])[..|snaps|] == snaps;
    forall h
      ensures CountIs(t, snaps + [s], Hashes([]), h)
    {
      assert CountIs(t, snaps, Hashes(s.txs), h);
    }
    assert Transactions(snaps + [s]) + [] == Transactions(snaps) + s.txs;
  }

  method CountSnapshot(t: Tally, s: Snapshot, ghost snaps: seq<Snapshot>) returns (t': Tally)
    requires Counted(t, snaps, [])
    ensures Counted(t', snaps + [s], [])
  {
    t' := t;
    var seenInThisNode: set<string> := {};
    assert s.txs[..0] == [];
    for j := 0 to |s.txs|
      invariant seenInThisNode == Hashes(s.txs[..j])
      invariant Counted(t', snaps, s.txs[..j])
    {
      hide Counted;
      var tx := s.txs[j];
      assert s.txs[..j + 1] == s.txs[..j] + [tx];
      CountedTx(t', snaps, s.txs[..j], tx);
      HashesAppend(s.txs[..j], [tx]);
      if tx.hash in seenInThisNode {
        continue;
      }
      seenInThisNode := seenInThisNode + {tx.hash};
      t' := CountTx(t', tx);
    }
    assert s.txs[..|s.txs|] == s.txs;
    CountedSnapshot(t', snaps, s);
  }

  method CountHashes(snaps: seq<Snapshot>) returns (t: Tally)
    ensures Counted(t, snaps, [])
  {
    t := Tally(map[], map[]);
    assert snaps[..0] == [];
    for i := 0 to |snaps|
      invariant Counted(t, snaps[..i], [])
    {
      assert snaps[..i + 1] == snaps[..i] + [snaps[i]];
      t := CountSnapshot(t, snaps[i], snaps[..i]);
    }
    assert snaps[..|snaps|] == snaps;
  }

  // ---------------------------------------------------------------------------------------------
  // The diff
  // ---------------------------------------------------------------------------------------------

  /** The hashes that are on every snapshot. */
  ghost function Shared(snaps: seq<Snapshot>): set<string> {
    set h | h in Hashes(Transactions(snaps)) && OnAll(snaps, h)
  }

  /** The hashes of the transactions that are not shared, in order and with repetitions. */
  ghost function Rare(txs: seq<Tx>, shared: set<string>): seq<string> {
    if txs == [] then []
    else
      var h := txs[|txs| - 1].hash;
      Rare(txs[..|txs| - 1], shared) + if h in shared then [] else [h]
  }

  ghost function KindOf(all: seq<Tx>, h: string): string {
    if First(all, h).Some? then First(all, h).value.kind else ""
  }

  ghost function Suspects(txs: seq<Tx>, shared: set<string>, all: seq<Tx>): set<string> {
    set tx | tx in txs && tx.hash !in shared && KindOf(all, tx.hash) != "" :: KindOf(all, tx.hash)
  }

  ghost function Only(snaps: seq<Snapshot>, shared: set<string>): map<string, seq<string>> {
    if snaps == [] then map[]
    else
      var before, last := Only(snaps[..|snaps| - 1], shared), snaps[|snaps| - 1];
      if Rare(last.txs, shared) == [] then before else before[last.node := Sort(Rare(last.txs, shared))]
  }

  ghost predicate RootsDiffer(snaps: seq<Snapshot>) {
    exists i, j :: 0 <= i < |snaps| && 0 <= j < |snaps| && snaps[i].roots != snaps[j].roots
  }

  ghost function DiffOf(ledger: int, snaps: seq<Snapshot>, errors: map<string, string>): Diff {
    if |snaps| < 2 then Diff(ledger, snaps, map[], [], [], false, errors)
    else
      var shared, all := Shared(snaps), Transactions(snaps);
      Diff(ledger, snaps, Only(snaps, shared), Listing(shared), Listing(Suspects(all, shared, all)), RootsDiffer(snaps), errors)
  }

  method CommonHashes(t: Tally, snaps: seq<Snapshot>) returns (common: seq<string>)
    requires Counted(t, snaps, []) && snaps != []
    ensures common == Listing(Shared(snaps))
  {
    common := [];
    var rest := t.count.Keys;
    while rest != {}
      invariant rest <= t.count.Keys
      invariant Enumerates(common, set h | h in t.count && h !in rest && t.count[h] == |snaps|)
      decreases rest
    {
      ghost var before := set h | h in t.count && h !in rest && t.count[h] == |snaps|;
      var h :| h in rest;
      rest := rest - {h};
      ghost var after := set h | h in t.count && h !in rest && t.count[h] == |snaps|;
      assert after == before + if t.count[h] == |snaps| then {h} else {};
      if t.count[h] == |snaps| {
        common := common + [h];
      }
    }
    assert (set h | h in t.count && h !in rest && t.count[h] == |snaps|) == Shared(snaps) by {
      forall h
        ensures h in t.count && t.count[h] == |snaps| <==> h in Shared(snaps)
      {
        CountMeans(t, snaps, h);
      }
    }
    SortedListing(common, Shared(snaps));
    common := Sort(common);
  }

  lemma CountMeans(t: Tally, snaps: seq<Snapshot>, h: string)
    requires Counted(t, snaps, []) && snaps != []
    ensures h in t.count <==> h in Hashes(Transactions(snaps))
    ensures h in t.count ==> t.count[h] <= |snaps| && (t.count[h] == |snaps| <==> h in Shared(snaps))
    ensures h in t.count ==> h in t.rep && t.rep[h].kind == KindOf(Transactions(snaps), h)
  {
    assert CountIs(t, snaps, Hashes([]), h);
    PresentOnAll(snaps, h);
    PresentSomewhere(snaps, h);
    assert Transactions(snaps) + [] == Transactions(snaps);
    assert RepIs(t, Transactions(snaps), h);
    FirstFound(Transactions(snaps), h);
  }

  /** One node's own hashes, and the suspect types they add. */
  method OwnHashes(t: Tally, snaps: seq<Snapshot>, i: nat, suspects: set<string>) returns (only: seq<string>, suspects': set<string>)
    requires i < |snaps| && Counted(t, snaps, [])
    ensures only == Rare(snaps[i].txs, Shared(snaps))
    ensures suspects' == suspects + Suspects(snaps[i].txs, Shared(snaps), Transactions(snaps))
  {
    only, suspects' := [], suspects;
    var txs := snaps[i].txs;
    ghost var shared, all := Shared(snaps), Transactions(snaps);
    assert txs[..0] == [] && txs[..|txs|] == txs;
    hide Shared, KindOf, Counted, Rare, Suspects, Transactions, Hashes;
    NothingOwn(shared, all);
    for j := 0 to |txs|
      invariant only == Rare(txs[..j], shared)
      invariant suspects' == suspects + Suspects(txs[..j], shared, all)
    {
      var tx := txs[j];
      OwnStep(t, snaps, i, j);
      if t.count[tx.hash] < |snaps| {
        only := only + [tx.hash];
        var kind := t.rep[tx.hash].kind;
        if kind != "" {
          suspects' := suspects' + {kind};
        }
      }
    }
  }

  lemma NothingOwn(shared: set<string>, all: seq<Tx>)
    ensures Rare([], shared) == [] && Suspects([], shared, all) == {}
  {
  }

  lemma {:induction false} OnSome(snaps: seq<Snapshot>, i: nat, tx: Tx)
    requires i < |snaps| && tx in snaps[i].txs
    ensures tx in Transactions(snaps) && tx.hash in Hashes(Transactions(snaps))
  {
    if i < |snaps| - 1 {
      OnSome(snaps[..|snaps| - 1], i, tx);
    }
  }

  /** One more transaction of node `i`. */
  lemma OwnStep(t: Tally, snaps: seq<Snapshot>, i: nat, j: nat)
    requires i < |snaps| && j < |snaps[i].txs| && Counted(t, snaps, [])
    ensures var txs, tx, shared, all := snaps[i].txs, snaps[i].txs[j], Shared(snaps), Transactions(snaps);
            && tx.hash in t.count && tx.hash in t.rep
            && Rare(txs[..j + 1], shared) == Rare(txs[..j], shared) + (if t.count[tx.hash] < |snaps| then [tx.hash] else [])
            && Suspects(txs[..j + 1], shared, all) == Suspects(txs[..j], shared, all)
               + if t.count[tx.hash] < |snaps| && t.rep[tx.hash].kind != "" then {t.rep[tx.hash].kind} else {}
  {
    hide Shared, KindOf, Counted, Rare, Suspects, Transactions, Hashes;
    var txs, tx := snaps[i].txs, snaps[i].txs[j];
    assert txs[..j + 1] == txs[..j] + [tx];
    RareAppend(txs[..j], tx, Shared(snaps));
    CountMeans(t, snaps, tx.hash);
    OnSome(snaps, i, tx);
    SuspectsAppend(txs[..j], tx, Shared(snaps), Transactions(snaps));
  }

  lemma RareAppend(txs: seq<Tx>, tx: Tx, shared: set<string>)
    ensures Rare(txs + [tx], shared) == Rare(txs, shared) + if tx.hash in shared then [] else [tx.hash]
  {
    assert (txs + [tx])[..|txs|] == txs;
  }

  lemma SuspectsAppend(txs: seq<Tx>, tx: Tx, shared: set<string>, all: seq<Tx>)
    ensures Suspects(txs + [tx], shared, all)
            == Suspects(txs, shared, all)
               + if tx.hash !in shared && KindOf(all, tx.hash) != "" then {KindOf(all, tx.hash)} else {}
  {
    hide KindOf;
    SuspectsJoin(txs, [tx], shared, all);
  }

  lemma SuspectsJoin(a: seq<Tx>, b: seq<Tx>, shared: set<string>, all: seq<Tx>)
    ensures Suspects(a + b, shared, all) == Suspects(a, shared, all) + Suspects(b, shared, all)
  {
    hide KindOf;
    forall k
      ensures k in Suspects(a + b, shared, all) <==> k in Suspects(a, shared, all) || k in Suspects(b, shared, all)
    {
      if k in Suspects(a, shared, all) {
        var tx :| tx in a && tx.hash !in shared && KindOf(all, tx.hash) != "" && KindOf(all, tx.hash) == k;
        assert tx in a + b;
      }
      if k in Suspects(b, shared, all) {
        var tx :| tx in b && tx.hash !in shared && KindOf(all, tx.hash) != "" && KindOf(all, tx.hash) == k;
        assert tx in a + b;
      }
    }
  }

  method ComputeLedgerDiff(ledger: int, snaps: seq<Option<Snapshot>>, fetchErrors: map<string, string>) returns (diff: Diff)
    ensures diff == DiffOf(ledger, SortByNode(Fetched(snaps)), fetchErrors)
    ensures diff.ledger == ledger && diff.fetchErrors == fetchErrors
    ensures diff.rootConflict <==> SomeRootsDisagree(snaps)
    ensures DistinctlyNamed(snaps) ==> Says(snaps, diff)
  {
    hide Says, SomeRootsDisagree, DistinctlyNamed;
    ConflictIsOnInputs(ledger, snaps, fetchErrors);
    if DistinctlyNamed(snaps) {
      DiffOnInputs(ledger, snaps, fetchErrors);
    }
    var fetched: seq<Snapshot> := [];
    for i := 0 to |snaps|
      invariant fetched == Fetched(snaps[..i])
    {
      assert snaps[..i + 1][..i] == snaps[..i];
      if snaps[i].Some? {
        fetched := fetched + [snaps[i].value];
      }
    }
    assert snaps[..|snaps|] == snaps;
    var sorted := SortByNode(fetched);
    diff := Diff(ledger, sorted, map[], [], [], false, fetchErrors);
    if |sorted| < 2 {
      return;
    }
    var t := CountHashes(sorted);
    var common := CommonHashes(t, sorted);
    var only, suspectTypes := OnlyOnNodes(t, sorted);
    var kinds := Elements(suspectTypes);
    SortedListing(kinds, suspectTypes);
    var conflict := RootConflict(sorted);
    diff := diff.(only := only, common := common, suspects := Sort(kinds), rootConflict := conflict);
  }

  method OnlyOnNodes(t: Tally, snaps: seq<Snapshot>) returns (only: map<string, seq<string>>, suspects: set<string>)
    requires Counted(t, snaps, [])
    ensures only == Only(snaps, Shared(snaps))
    ensures suspects == Suspects(Transactions(snaps), Shared(snaps), Transactions(snaps))
  {
    only, suspects := map[], {};
    for i := 0 to |snaps|
      invariant only == Only(snaps[..i], Shared(snaps))
      invariant suspects == Suspects(Transactions(snaps[..i]), Shared(snaps), Transactions(snaps))
    {
      hide Shared, Counted, Rare, Suspects;
      assert snaps[..i + 1][..i] == snaps[..i];
      var own;
      own, suspects := OwnHashes(t, snaps, i, suspects);
      SuspectsJoin(Transactions(snaps[..i]), snaps[i].txs, Shared(snaps), Transactions(snaps));
      if 0 < |own| {
        only := only[snaps[i].node := Sort(own)];
      }
    }
    assert snaps[..|snaps|] == snaps;
  }

  method RootConflict(snaps: seq<Snapshot>) returns (conflict: bool)
    requires snaps != []
    ensures conflict == RootsDiffer(snaps)
  {
    var reference := snaps[0].roots;
    conflict := false;
    for i := 1 to |snaps|
      invariant !conflict && forall j :: 0 <= j < i ==> snaps[j].roots == reference
    {
      var roots := snaps[i].roots;
      if roots.ledger != reference.ledger || roots.account != reference.account || roots.transaction != reference.transaction {
        assert snaps[i].roots != snaps[0].roots;
        return true;
      }
    }
  }

  // ---------------------------------------------------------------------------------------------
  // What the diff says
  // ---------------------------------------------------------------------------------------------

  /** The diff does not depend on the order in which the snapshots arrive. */
  lemma DiffOfAnyOrder(ledger: int, a: seq<Option<Snapshot>>, b: seq<Option<Snapshot>>, errors: map<string, string>)
    requires DistinctNodes(Fetched(a)) && DistinctNodes(Fetched(b))
    requires forall s :: s in Fetched(a) <==> s in Fetched(b)
    ensures DiffOf(ledger, SortByNode(Fetched(a)), errors) == DiffOf(ledger, SortByNode(Fetched(b)), errors)
  {
    SortedByNode(Fetched(a));
    SortedByNode(Fetched(b));
    OneNodeOrder(SortByNode(Fetched(a)), SortByNode(Fetched(b)));
  }

  lemma {:induction false} RareIs(txs: seq<Tx>, shared: set<string>)
    ensures forall h :: h in Rare(txs, shared) <==> h in Hashes(txs) && h !in shared
  {
    if txs != [] {
      var front, last := txs[..|txs| - 1], txs[|txs| - 1];
      RareIs(front, shared);
      HashesAppend(front, [last]);
      assert txs == front + [last];
    }
  }

  ghost function AllHashes(txs: seq<Tx>): seq<string> {
    seq(|txs|, i requires 0 <= i < |txs| => txs[i].hash)
  }

  /** A hash that is not shared is listed as often as the node has it. */
  lemma {:induction false} RareOften(txs: seq<Tx>, shared: set<string>, h: string)
    ensures multiset(Rare(txs, shared))[h] == if h in shared then 0 else multiset(AllHashes(txs))[h]
  {
    hide Rare;
    NothingOwn(shared, []);
    if txs == [] {
      assert AllHashes(txs) == [];
    } else {
      var n := |txs| - 1;
      RareOften(txs[..n], shared, h);
      assert txs == txs[..n] + [txs[n]];
      RareAppend(txs[..n], txs[n], shared);
      assert AllHashes(txs) == AllHashes(txs[..n]) + [txs[n].hash];
    }
  }

  lemma SharedIs(snaps: seq<Snapshot>, h: string)
    requires snaps != []
    ensures h in Shared(snaps) <==> OnAll(snaps, h)
  {
    if OnAll(snaps, h) {
      assert h in Hashes(snaps[0].txs);
      var tx :| tx in snaps[0].txs && tx.hash == h;
      OnSome(snaps, 0, tx);
    }
  }

  /** common_hashes is the sorted intersection, without repetitions. */
  lemma CommonIsIntersection(ledger: int, snaps: seq<Snapshot>, errors: map<string, string>)
    requires 2 <= |snaps|
    ensures var common := DiffOf(ledger, snaps, errors).common;
            IsStrictlySorted(common) && forall h :: h in common <==> OnAll(snaps, h)
  {
    ListingOf(Shared(snaps));
    forall h
      ensures h in Listing(Shared(snaps)) <==> OnAll(snaps, h)
    {
      SharedIs(snaps, h);
    }
  }

  lemma {:induction false} OnlyIs(snaps: seq<Snapshot>, shared: set<string>, i: nat)
    requires i < |snaps| && DistinctNodes(snaps)
    ensures var own := Rare(snaps[i].txs, shared);
            && (snaps[i].node in Only(snaps, shared) <==> own != [])
            && (own != [] ==> Only(snaps, shared)[snaps[i].node] == Sort(own))
  {
    var n := |snaps| - 1;
    if i < n {
      OnlyIs(snaps[..n], shared, i);
    } else {
      OnlyKeys(snaps[..n], shared, snaps[n].node);
    }
  }

  lemma {:induction false} OnlyKeys(snaps: seq<Snapshot>, shared: set<string>, node: string)
    ensures node in Only(snaps, shared) ==> exists i :: 0 <= i < |snaps| && snaps[i].node == node
  {
    if snaps != [] && node in Only(snaps, shared) {
      var n := |snaps| - 1;
      OnlyKeys(snaps[..n], shared, node);
      if node != snaps[n].node {
        var i :| 0 <= i < n && snaps[..n][i].node == node;
        assert snaps[i].node == node;
      }
    }
  }

  /** only_on_nodes: for each node its hashes that some other node lacks, sorted, as often as the
      node has them; nodes without any are left out. */
  lemma OnlyOnNodesIs(ledger: int, snaps: seq<Snapshot>, errors: map<string, string>, i: nat)
    requires 2 <= |snaps| && i < |snaps| && DistinctNodes(snaps)
    ensures var only, node := DiffOf(ledger, snaps, errors).only, snaps[i].node;
            && (node in only <==> exists h :: h in Hashes(snaps[i].txs) && !OnAll(snaps, h))
            && (node in only ==>
                  && IsSorted(only[node])
                  && forall h :: multiset(only[node])[h] == if OnAll(snaps, h) then 0 else multiset(AllHashes(snaps[i].txs))[h])
    ensures forall node :: node in DiffOf(ledger, snaps, errors).only ==> exists j :: 0 <= j < |snaps| && snaps[j].node == node
  {
    var shared := Shared(snaps);
    var own := Rare(snaps[i].txs, shared);
    OnlyIs(snaps, shared, i);
    RareIs(snaps[i].txs, shared);
    SortSorts(own);
    SortPermutes(own);
    forall h
      ensures h in shared <==> OnAll(snaps, h)
      ensures multiset(own)[h] == if OnAll(snaps, h) then 0 else multiset(AllHashes(snaps[i].txs))[h]
    {
      SharedIs(snaps, h);
      RareOften(snaps[i].txs, shared, h);
    }
    if own != [] {
      assert own[0] in own;
    }
    forall node | node in DiffOf(ledger, snaps, errors).only
      ensures exists j :: 0 <= j < |snaps| && snaps[j].node == node
    {
      OnlyKeys(snaps, shared, node);
    }
  }

  /** suspect_tx_types: the types, as the first node that has the transaction gives them, of the
      transactions that some node lacks; sorted, without repetitions and without the empty type. */
  lemma SuspectsAre(ledger: int, snaps: seq<Snapshot>, errors: map<string, string>, k: string)
    requires 2 <= |snaps|
    ensures var suspects, all := DiffOf(ledger, snaps, errors).suspects, Transactions(snaps);
            && IsStrictlySorted(suspects)
            && (k in suspects <==> k != "" && exists h :: !OnAll(snaps, h) && First(all, h).Some? && First(all, h).value.kind == k)
  {
    hide OnAll, Shared, Transactions, First;
    var shared, all := Shared(snaps), Transactions(snaps);
    var suspects := Suspects(all, shared, all);
    ListingOf(suspects);
    if k in suspects {
      var tx :| tx in all && tx.hash !in shared && KindOf(all, tx.hash) == k && k != "";
      SharedIs(snaps, tx.hash);
      FirstFound(all, tx.hash);
      assert First(all, tx.hash).Some? && First(all, tx.hash).value.kind == k;
    }
    if k != "" && exists h :: !OnAll(snaps, h) && First(all, h).Some? && First(all, h).value.kind == k {
      var h :| !OnAll(snaps, h) && First(all, h).Some? && First(all, h).value.kind == k;
      SharedIs(snaps, h);
      FirstFound(all, h);
      var tx := First(all, h).value;
      assert tx in all && tx.hash !in shared && KindOf(all, tx.hash) == k;
    }
  }

  // ---------------------------------------------------------------------------------------------
  // What the diff says of the snapshots as handed in
  // ---------------------------------------------------------------------------------------------

  ghost predicate Holds(snap: Option<Snapshot>, h: string) {
    snap.Some? && exists tx :: tx in snap.value.txs && tx.hash == h
  }

  /** No fetched snapshot lacks the hash. */
  ghost predicate Everywhere(snaps: seq<Option<Snapshot>>, h: string) {
    forall i :: 0 <= i < |snaps| && snaps[i].Some? ==> Holds(snaps[i], h)
  }

  ghost predicate TwoFetched(snaps: seq<Option<Snapshot>>) {
    exists i, j :: 0 <= i < j < |snaps| && snaps[i].Some? && snaps[j].Some?
  }

  ghost predicate DistinctlyNamed(snaps: seq<Option<Snapshot>>) {
    forall i, j :: 0 <= i < j < |snaps| && snaps[i].Some? && snaps[j].Some? ==> snaps[i].value.node != snaps[j].value.node
  }

  ghost predicate RootsDisagree(a: Option<Snapshot>, b: Option<Snapshot>) {
    && a.Some? && b.Some?
    && (a.value.roots.ledger != b.value.roots.ledger
        || a.value.roots.account != b.value.roots.account
        || a.value.roots.transaction != b.value.roots.transaction)
  }

  ghost predicate SomeRootsDisagree(snaps: seq<Option<Snapshot>>) {
    exists i, j :: 0 <= i < |snaps| && 0 <= j < |snaps| && RootsDisagree(snaps[i], snaps[j])
  }

  /** `tx` is the first transaction with its hash that its node lists, and no node with a lesser
      name lists one. */
  ghost predicate FirstReported(snaps: seq<Option<Snapshot>>, i: int, j: int, tx: Tx) {
    && 0 <= i < |snaps| && snaps[i].Some? && 0 <= j < |snaps[i].value.txs| && snaps[i].value.txs[j] == tx
    && (forall b :: 0 <= b < j ==> snaps[i].value.txs[b].hash != tx.hash)
    && (forall a :: 0 <= a < |snaps| && Holds(snaps[a], tx.hash) ==> LessEq(snaps[i].value.node, snaps[a].value.node))
  }

  /** The type of a transaction that some node lacks. */
  ghost predicate Suspected(snaps: seq<Option<Snapshot>>, kind: string) {
    kind != "" && exists i, j, tx :: FirstReported(snaps, i, j, tx) && tx.kind == kind && !Everywhere(snaps, tx.hash)
  }

  /** Node `s` is listed with its hashes that some node lacks, sorted, as often as it has them; it is
      left out without any. */
  ghost predicate ListsOwn(snaps: seq<Option<Snapshot>>, only: map<string, seq<string>>, s: Snapshot) {
    && (s.node in only <==> exists tx :: tx in s.txs && !Everywhere(snaps, tx.hash))
    && (s.node in only ==>
          && IsSorted(only[s.node])
          && forall h :: multiset(only[s.node])[h] == if Everywhere(snaps, h) then 0 else multiset(AllHashes(s.txs))[h])
  }

  /** The shared hashes, and for each node its own. */
  ghost predicate SortsHashes(snaps: seq<Option<Snapshot>>, diff: Diff) {
    && IsStrictlySorted(diff.common)
    && (forall h :: h in diff.common <==> Everywhere(snaps, h))
    && (forall s :: Some(s) in snaps ==> ListsOwn(snaps, diff.only, s))
    && (forall node :: node in diff.only ==> exists s :: Some(s) in snaps && s.node == node)
  }

  ghost predicate NamesSuspects(snaps: seq<Option<Snapshot>>, diff: Diff) {
    IsStrictlySorted(diff.suspects) && forall kind :: kind in diff.suspects <==> Suspected(snaps, kind)
  }

  ghost predicate Says(snaps: seq<Option<Snapshot>>, diff: Diff) {
    && InNodeOrder(diff.snapshots)
    && (forall s :: s in diff.snapshots <==> Some(s) in snaps)
    && if TwoFetched(snaps) then SortsHashes(snaps, diff) && NamesSuspects(snaps, diff)
       else diff.common == [] && diff.only == map[] && diff.suspects == []
  }

  lemma {:induction false} InsertKeeps(s: Snapshot, rest: seq<Snapshot>)
    ensures multiset(InsertByNode(s, rest)) == multiset(rest) + multiset{s}
  {
    if rest != [] && !LessEq(s.node, rest[0].node) {
      InsertKeeps(s, rest[1..]);
      assert rest == [rest[0]] + rest[1..];
    }
  }

  lemma {:induction false} SortKeeps(snaps: seq<Snapshot>)
    ensures multiset(SortByNode(snaps)) == multiset(snaps)
  {
    if snaps != [] {
      SortKeeps(snaps[1..]);
      InsertKeeps(snaps[0], SortByNode(snaps[1..]));
      assert snaps == [snaps[0]] + snaps[1..];
    }
  }

  lemma {:induction false} FetchedAre(snaps: seq<Option<Snapshot>>)
    ensures forall s :: s in Fetched(snaps) <==> Some(s) in snaps
  {
    if snaps != [] {
      var n := |snaps| - 1;
      FetchedAre(snaps[..n]);
      assert snaps == snaps[..n] + [snaps[n]];
    }
  }

  lemma FetchedOne(snaps: seq<Option<Snapshot>>)
    ensures Fetched(snaps) != [] <==> exists i :: 0 <= i < |snaps| && snaps[i].Some?
  {
    FetchedAre(snaps);
    if Fetched(snaps) != [] {
      assert Fetched(snaps)[0] in Fetched(snaps);
    }
    if i :| 0 <= i < |snaps| && snaps[i].Some? {
      assert Some(snaps[i].value) in snaps;
    }
  }

  lemma TwoOfMore(snaps: seq<Option<Snapshot>>, n: nat)
    requires |snaps| == n + 1
    ensures TwoFetched(snaps) <==> TwoFetched(snaps[..n]) || (snaps[n].Some? && exists i :: 0 <= i < n && snaps[i].Some?)
  {
    if TwoFetched(snaps) {
      var i, j :| 0 <= i < j <= n && snaps[i].Some? && snaps[j].Some?;
      assert j < n ==> snaps[..n][i].Some? && snaps[..n][j].Some?;
    }
    if TwoFetched(snaps[..n]) {
      var i, j :| 0 <= i < j < n && snaps[..n][i].Some? && snaps[..n][j].Some?;
      assert snaps[i].Some? && snaps[j].Some?;
    }
  }

  lemma {:induction false} FetchedTwo(snaps: seq<Option<Snapshot>>)
    ensures 2 <= |Fetched(snaps)| <==> TwoFetched(snaps)
  {
    hide TwoFetched;
    if snaps == [] {
      NoneFetched(snaps);
    } else {
      var n := |snaps| - 1;
      FetchedTwo(snaps[..n]);
      TwoOfMore(snaps, n);
      FetchedOne(snaps[..n]);
      SomeOfFront(snaps, n);
    }
  }

  lemma NoneFetched(snaps: seq<Option<Snapshot>>)
    requires snaps == []
    ensures !TwoFetched(snaps) && Fetched(snaps) == []
  {
  }

  lemma SomeOfFront(snaps: seq<Option<Snapshot>>, n: nat)
    requires n < |snaps|
    ensures (exists i :: 0 <= i < n && snaps[..n][i].Some?) <==> exists i :: 0 <= i < n && snaps[i].Some?
  {
    if i :| 0 <= i < n && snaps[i].Some? {
      assert snaps[..n][i].Some?;
    }
  }

  lemma {:induction false} FetchedDistinct(snaps: seq<Option<Snapshot>>)
    requires DistinctlyNamed(snaps)
    ensures DistinctNodes(Fetched(snaps))
  {
    if snaps != [] {
      var n := |snaps| - 1;
      FetchedDistinct(snaps[..n]);
      FetchedAre(snaps[..n]);
      if snaps[n].Some? {
        forall k | 0 <= k < |Fetched(snaps[..n])|
          ensures Fetched(snaps[..n])[k].node != snaps[n].value.node
        {
          var s := Fetched(snaps[..n])[k];
          assert s in Fetched(snaps[..n]);
          var i :| 0 <= i < n && snaps[..n][i] == Some(s);
          assert snaps[i] == Some(s);
        }
      }
    }
  }

  /** The snapshots the diff is of. */
  lemma Arranged(snaps: seq<Option<Snapshot>>)
    ensures var sorted := SortByNode(Fetched(snaps));
            && (forall s :: s in sorted <==> Some(s) in snaps)
            && (2 <= |sorted| <==> TwoFetched(snaps))
            && (DistinctlyNamed(snaps) ==> InNodeOrder(sorted))
  {
    var sorted := SortByNode(Fetched(snaps));
    FetchedAre(snaps);
    FetchedTwo(snaps);
    SortKeeps(Fetched(snaps));
    assert |multiset(sorted)| == |sorted| && |multiset(Fetched(snaps))| == |Fetched(snaps)|;
    forall s
      ensures s in sorted <==> s in Fetched(snaps)
    {
      assert s in sorted <==> s in multiset(sorted);
      assert s in Fetched(snaps) <==> s in multiset(Fetched(snaps));
    }
    if DistinctlyNamed(snaps) {
      FetchedDistinct(snaps);
      SortedByNode(Fetched(snaps));
    }
  }

  lemma OnAllIsEverywhere(snaps: seq<Option<Snapshot>>, sorted: seq<Snapshot>, h: string)
    requires forall s :: s in sorted <==> Some(s) in snaps
    ensures OnAll(sorted, h) <==> Everywhere(snaps, h)
  {
    if OnAll(sorted, h) {
      forall i | 0 <= i < |snaps| && snaps[i].Some?
        ensures Holds(snaps[i], h)
      {
        assert snaps[i].value in sorted;
      }
    }
    if Everywhere(snaps, h) {
      forall i | 0 <= i < |sorted|
        ensures h in Hashes(sorted[i].txs)
      {
        assert Some(sorted[i]) in snaps;
        assert Holds(Some(sorted[i]), h);
      }
    }
  }

  /** A root conflict is two fetched snapshots that differ in one of the three roots. */
  lemma ConflictIsOnInputs(ledger: int, snaps: seq<Option<Snapshot>>, errors: map<string, string>)
    ensures DiffOf(ledger, SortByNode(Fetched(snaps)), errors).rootConflict <==> SomeRootsDisagree(snaps)
  {
    var sorted := SortByNode(Fetched(snaps));
    Arranged(snaps);
    if SomeRootsDisagree(snaps) {
      var i, j :| 0 <= i < |snaps| && 0 <= j < |snaps| && RootsDisagree(snaps[i], snaps[j]);
      assert i < j || j < i;
      assert snaps[i].value in sorted && snaps[j].value in sorted;
      assert TwoFetched(snaps);
    }
    if 2 <= |sorted| && RootsDiffer(sorted) {
      var i, j :| 0 <= i < |sorted| && 0 <= j < |sorted| && sorted[i].roots != sorted[j].roots;
      assert Some(sorted[i]) in snaps && Some(sorted[j]) in snaps;
      var a :| 0 <= a < |snaps| && snaps[a] == Some(sorted[i]);
      var b :| 0 <= b < |snaps| && snaps[b] == Some(sorted[j]);
      assert RootsDisagree(snaps[a], snaps[b]);
    }
  }

  lemma {:induction false} FirstJoin(a: seq<Tx>, b: seq<Tx>, h: string)
    ensures First(a + b, h) == if First(a, h).Some? then First(a, h) else First(b, h)
  {
    if b == [] {
      assert a + b == a;
    } else {
      FirstJoin(a, b[..|b| - 1], h);
      assert (a + b)[..|a + b| - 1] == a + b[..|b| - 1];
    }
  }

  lemma {:induction false} FirstPlace(txs: seq<Tx>, h: string) returns (j: nat)
    requires First(txs, h).Some?
    ensures j < |txs| && txs[j] == First(txs, h).value && txs[j].hash == h && forall b :: 0 <= b < j ==> txs[b].hash != h
  {
    var n := |txs| - 1;
    if First(txs[..n], h).Some? {
      j := FirstPlace(txs[..n], h);
    } else {
      j := n;
      forall b | 0 <= b < n
        ensures txs[b].hash != h
      {
        FirstFound(txs[..n], h);
        assert txs[..n][b] in txs[..n];
      }
    }
  }

  /** The first transaction over all nodes is that of the first node which has any. */
  lemma {:induction false} FirstNode(snaps: seq<Snapshot>, h: string) returns (i: nat)
    requires First(Transactions(snaps), h).Some?
    ensures i < |snaps| && First(snaps[i].txs, h) == First(Transactions(snaps), h)
    ensures forall a :: 0 <= a < i ==> h !in Hashes(snaps[a].txs)
  {
    var n := |snaps| - 1;
    FirstJoin(Transactions(snaps[..n]), snaps[n].txs, h);
    if First(Transactions(snaps[..n]), h).Some? {
      i := FirstNode(snaps[..n], h);
    } else {
      i := n;
      forall a | 0 <= a < n
        ensures h !in Hashes(snaps[a].txs)
      {
        FirstFound(Transactions(snaps[..n]), h);
        if h in Hashes(snaps[a].txs) {
          var tx :| tx in snaps[a].txs && tx.hash == h;
          OnSome(snaps[..n], a, tx);
        }
      }
    }
  }

  lemma FirstIsReported(snaps: seq<Option<Snapshot>>, sorted: seq<Snapshot>, h: string)
    requires InNodeOrder(sorted) && forall s :: s in sorted <==> Some(s) in snaps
    requires First(Transactions(sorted), h).Some?
    ensures var tx := First(Transactions(sorted), h).value; tx.hash == h && exists i, j :: FirstReported(snaps, i, j, tx)
  {
    var tx := First(Transactions(sorted), h).value;
    var a := FirstNode(sorted, h);
    var j := FirstPlace(sorted[a].txs, h);
    assert Some(sorted[a]) in snaps;
    var i :| 0 <= i < |snaps| && snaps[i] == Some(sorted[a]);
    forall b | 0 <= b < |snaps| && Holds(snaps[b], h)
      ensures LessEq(snaps[i].value.node, snaps[b].value.node)
    {
      assert snaps[b].value in sorted;
      var c :| 0 <= c < |sorted| && sorted[c] == snaps[b].value;
      assert h in Hashes(sorted[c].txs);
      LessEqTotal(sorted[a].node, sorted[a].node);
    }
    assert FirstReported(snaps, i, j, tx);
  }

  lemma ReportedIsFirst(snaps: seq<Option<Snapshot>>, sorted: seq<Snapshot>, i: int, j: int, tx: Tx)
    requires InNodeOrder(sorted) && forall s :: s in sorted <==> Some(s) in snaps
    requires FirstReported(snaps, i, j, tx)
    ensures First(Transactions(sorted), tx.hash) == Some(tx)
  {
    var s := snaps[i].value;
    assert Some(s) in snaps;
    var at :| 0 <= at < |sorted| && sorted[at] == s;
    assert tx in s.txs;
    OnSome(sorted, at, tx);
    FirstFound(Transactions(sorted), tx.hash);
    var a := FirstNode(sorted, tx.hash);
    FirstFound(sorted[a].txs, tx.hash);
    assert a <= at;
    assert Some(sorted[a]) in snaps;
    var b :| 0 <= b < |snaps| && snaps[b] == Some(sorted[a]);
    assert Holds(snaps[b], tx.hash);
    LessEqTotal(s.node, sorted[a].node);
    assert a == at;
    var k := FirstPlace(s.txs, tx.hash);
    assert k == j;
  }

  lemma SuspectsOnInputs(ledger: int, snaps: seq<Option<Snapshot>>, errors: map<string, string>, kind: string)
    requires DistinctlyNamed(snaps) && TwoFetched(snaps)
    ensures kind in DiffOf(ledger, SortByNode(Fetched(snaps)), errors).suspects <==> Suspected(snaps, kind)
  {
    var sorted := SortByNode(Fetched(snaps));
    Arranged(snaps);
    SuspectsAre(ledger, sorted, errors, kind);
    var all := Transactions(sorted);
    if kind != "" && exists h :: !OnAll(sorted, h) && First(all, h).Some? && First(all, h).value.kind == kind {
      var h :| !OnAll(sorted, h) && First(all, h).Some? && First(all, h).value.kind == kind;
      FirstIsReported(snaps, sorted, h);
      OnAllIsEverywhere(snaps, sorted, h);
    }
    if Suspected(snaps, kind) {
      var i, j, tx :| FirstReported(snaps, i, j, tx) && tx.kind == kind && !Everywhere(snaps, tx.hash);
      ReportedIsFirst(snaps, sorted, i, j, tx);
      OnAllIsEverywhere(snaps, sorted, tx.hash);
    }
  }

  lemma OwnOnInputs(ledger: int, snaps: seq<Option<Snapshot>>, errors: map<string, string>, s: Snapshot)
    requires DistinctlyNamed(snaps) && TwoFetched(snaps) && Some(s) in snaps
    ensures ListsOwn(snaps, DiffOf(ledger, SortByNode(Fetched(snaps)), errors).only, s)
  {
    hide OnAll, Everywhere, DiffOf;
    var sorted := SortByNode(Fetched(snaps));
    Arranged(snaps);
    var i :| 0 <= i < |sorted| && sorted[i] == s;
    OnlyOnNodesIs(ledger, sorted, errors, i);
    forall h
      ensures OnAll(sorted, h) <==> Everywhere(snaps, h)
    {
      OnAllIsEverywhere(snaps, sorted, h);
    }
    var lacking := exists h :: h in Hashes(s.txs) && !OnAll(sorted, h);
    assert lacking <==> exists tx :: tx in s.txs && !Everywhere(snaps, tx.hash) by {
      if tx :| tx in s.txs && !Everywhere(snaps, tx.hash) {
        assert tx.hash in Hashes(s.txs) && !OnAll(sorted, tx.hash);
      }
    }
  }

  lemma HashesOnInputs(ledger: int, snaps: seq<Option<Snapshot>>, errors: map<string, string>)
    requires DistinctlyNamed(snaps) && TwoFetched(snaps)
    ensures SortsHashes(snaps, DiffOf(ledger, SortByNode(Fetched(snaps)), errors))
  {
    hide Everywhere, OnAll, ListsOwn;
    var sorted := SortByNode(Fetched(snaps));
    var diff := DiffOf(ledger, sorted, errors);
    Arranged(snaps);
    CommonIsIntersection(ledger, sorted, errors);
    OnlyOnNodesIs(ledger, sorted, errors, 0);
    forall h
      ensures h in diff.common <==> Everywhere(snaps, h)
    {
      OnAllIsEverywhere(snaps, sorted, h);
    }
    forall s | Some(s) in snaps
      ensures ListsOwn(snaps, diff.only, s)
    {
      OwnOnInputs(ledger, snaps, errors, s);
    }
    forall node | node in diff.only
      ensures exists s :: Some(s) in snaps && s.node == node
    {
      var j :| 0 <= j < |sorted| && sorted[j].node == node;
      assert sorted[j] in sorted;
    }
  }

  /** What the diff says of the snapshots that were fetched, whatever order they come in. */
  lemma DiffOnInputs(ledger: int, snaps: seq<Option<Snapshot>>, errors: map<string, string>)
    requires DistinctlyNamed(snaps)
    ensures Says(snaps, DiffOf(ledger, SortByNode(Fetched(snaps)), errors))
  {
    hide Suspected, SortsHashes;
    var sorted := SortByNode(Fetched(snaps));
    Arranged(snaps);
    if TwoFetched(snaps) {
      HashesOnInputs(ledger, snaps, errors);
      SuspectsAre(ledger, sorted, errors, "");
      forall kind
        ensures kind in DiffOf(ledger, sorted, errors).suspects <==> Suspected(snaps, kind)
      {
        SuspectsOnInputs(ledger, snaps, errors, kind);
      }
    }
  }
}
