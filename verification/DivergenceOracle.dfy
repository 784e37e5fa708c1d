/** The fork oracle: on each tick it groups the observed (node, ledger, hash) triples by ledger and
    adds one finding for every conflict it has not seen, remembering conflicts by a string key. */
module DivergenceOracle {
  import opened Sets
  import opened Text

  datatype Input = Input(node: string, ledger: int, hash: string)

  /** A ledger and the hashes it was validated with: what a finding of this oracle is about. */
  datatype Conflict = Conflict(ledger: int, hashes: set<string>)

  ghost function HashesAt(inputs: seq<Input>, ledger: int): set<string> {
    set i | 0 <= i < |inputs| && inputs[i].ledger == ledger :: inputs[i].hash
  }

  /** The conflicts present in a snapshot. */
  ghost function Conflicts(inputs: seq<Input>): set<Conflict> {
    set i | 0 <= i < |inputs| && 2 <= |HashesAt(inputs, inputs[i].ledger)|
      :: Conflict(inputs[i].ledger, HashesAt(inputs, inputs[i].ledger))
  }

  ghost function Key(c: Conflict): string {
    Decimal(c.ledger) + [':'] + Join(Listing(c.hashes), '|')
  }

  ghost predicate HasKey(findings: seq<Conflict>, key: string) {
    exists i :: 0 <= i < |findings| && Key(findings[i]) == key
  }

  ghost function Keys(conflicts: set<Conflict>): set<string> {
    set c | c in conflicts :: Key(c)
  }

  /** What reporting `conflicts` does to the oracle: remember every one of them, and add one finding
      for each key not remembered before. */
  ghost predicate Reported(seen: set<string>, findings: seq<Conflict>, conflicts: set<Conflict>,
                           seen': set<string>, findings': seq<Conflict>)
  {
    && seen' == seen + Keys(conflicts)
    && findings <= findings'
    && var added := findings'[|findings|..];
       && (forall i :: 0 <= i < |added| ==> added[i] in conflicts && Key(added[i]) !in seen)
       && (forall i, j :: 0 <= i < j < |added| ==> Key(added[i]) != Key(added[j]))
       && (forall c :: c in conflicts && Key(c) !in seen ==> HasKey(added, Key(c)))
  }

  ghost predicate Ticks(seen: set<string>, findings: seq<Conflict>, inputs: seq<Input>,
                        seen': set<string>, findings': seq<Conflict>)
  {
    Reported(seen, findings, Conflicts(inputs), seen', findings')
  }

  ghost function HashesOf(group: seq<Input>): set<string> {
    set i | 0 <= i < |group| :: group[i].hash
  }

  lemma HashesAppend(inputs: seq<Input>, x: Input, ledger: int)
    ensures HashesOf(inputs + [x]) == HashesOf(inputs) + {x.hash}
    ensures HashesAt(inputs + [x], ledger) == HashesAt(inputs, ledger) + if x.ledger == ledger then {x.hash} else {}
  {
    var all := inputs + [x];
    assert all[|inputs|] == x;
    assert forall i :: 0 <= i < |inputs| ==> all[i] == inputs[i];
  }

  /** Reporting conflicts one after the other. */
  lemma ReportRepeated(seen: set<string>, findings: seq<Conflict>, conflicts: set<Conflict>,
                       seen1: set<string>, findings1: seq<Conflict>, c: Conflict)
    requires Reported(seen, findings, conflicts, seen1, findings1) && Key(c) in seen1
    ensures Reported(seen, findings, conflicts + {c}, seen1 + {Key(c)}, findings1)
  {
    var added := findings1[|findings|..];
    assert Keys(conflicts + {c}) == Keys(conflicts) + {Key(c)};
    if Key(c) !in seen {
      var d :| d in conflicts && Key(d) == Key(c);
      assert HasKey(added, Key(d));
    }
  }

  lemma ReportFirst(seen: set<string>, findings: seq<Conflict>, conflicts: set<Conflict>,
                    seen1: set<string>, findings1: seq<Conflict>, c: Conflict)
    requires Reported(seen, findings, conflicts, seen1, findings1) && Key(c) !in seen1
    ensures Reported(seen, findings, conflicts + {c}, seen1 + {Key(c)}, findings1 + [c])
  {
    var one, two := findings1[|findings|..], (findings1 + [c])[|findings|..];
    assert Keys(conflicts + {c}) == Keys(conflicts) + {Key(c)};
    assert two == one + [c];
    forall d | d in conflicts + {c} && Key(d) !in seen
      ensures HasKey(two, Key(d))
    {
      HasKeyAppend(one, c, Key(d));
    }
    forall i | 0 <= i < |one|
      ensures Key(one[i]) != Key(c)
    {
      assert Key(one[i]) in Keys(conflicts);
    }
  }

  lemma ReportOneMore(seen: set<string>, findings: seq<Conflict>, conflicts: set<Conflict>,
                      seen1: set<string>, findings1: seq<Conflict>, c: Conflict)
    requires Reported(seen, findings, conflicts, seen1, findings1)
    ensures Reported(seen, findings, conflicts + {c}, seen1 + {Key(c)},
                     if Key(c) in seen1 then findings1 else findings1 + [c])
  {
    if Key(c) in seen1 {
      ReportRepeated(seen, findings, conflicts, seen1, findings1, c);
    } else {
      ReportFirst(seen, findings, conflicts, seen1, findings1, c);
    }
  }

  lemma HasKeyAppend(findings: seq<Conflict>, c: Conflict, key: string)
    ensures HasKey(findings + [c], key) <==> HasKey(findings, key) || Key(c) == key
  {
    var all := findings + [c];
    if HasKey(findings, key) {
      var i :| 0 <= i < |findings| && Key(findings[i]) == key;
      assert all[i] == findings[i];
    }
    assert all[|findings|] == c;
  }

  class Oracle {
    var seen: set<string>
    var findings: seq<Conflict>

    constructor ()
      ensures seen == {} && findings == []
    {
      seen, findings := {}, [];
    }

    method Tick(inputs: seq<Input>)
      modifies this
      ensures Ticks(old(seen), old(findings), inputs, seen, findings)
    {
      var bySeq := GroupByLedger(inputs);
      var rest := bySeq.Keys;
      VisitNone(seen, findings, inputs, rest);
      while rest != {}
        invariant rest <= bySeq.Keys
        invariant Visited(old(seen), old(findings), inputs, rest, seen, findings)
        decreases rest
      {
        hide Visited, Key, HashesOf, HashesAt;
        SomeMember(rest);
        var ledger :| ledger in rest;
        var hashSet := HashSet(bySeq[ledger]);
        VisitOne(old(seen), old(findings), inputs, rest, seen, findings, ledger);
        if 2 <= |hashSet| {
          Report(ledger, hashSet);
        }
        rest := rest - {ledger};
      }
      assert ConflictsOutside(inputs, {}) == Conflicts(inputs);
    }

    method Report(ledger: int, hashSet: set<string>)
      modifies this
      ensures var c := Conflict(ledger, hashSet);
              && seen == old(seen) + {Key(c)}
              && findings == if Key(c) in old(seen) then old(findings) else old(findings) + [c]
    {
      var hashes := Elements(hashSet);
      SortedListing(hashes, hashSet);
      var dedupKey := Decimal(ledger) + [':'] + Join(Sort(hashes), '|');
      if dedupKey !in seen {
        seen := seen + {dedupKey};
        findings := findings + [Conflict(ledger, hashSet)];
      }
    }
  }

  /** What a tick has done when the ledgers of `rest` are still to be visited. */
  ghost predicate Visited(seen0: set<string>, findings0: seq<Conflict>, inputs: seq<Input>, rest: set<int>,
                          seen: set<string>, findings: seq<Conflict>) {
    Reported(seen0, findings0, ConflictsOutside(inputs, rest), seen, findings)
  }

  lemma VisitNone(seen: set<string>, findings: seq<Conflict>, inputs: seq<Input>, rest: set<int>)
    requires forall i :: 0 <= i < |inputs| ==> inputs[i].ledger in rest
    ensures Visited(seen, findings, inputs, rest, seen, findings)
  {
    assert ConflictsOutside(inputs, rest) == {};
  }

  lemma VisitOne(seen0: set<string>, findings0: seq<Conflict>, inputs: seq<Input>, rest: set<int>,
                 seen: set<string>, findings: seq<Conflict>, ledger: int)
    requires Visited(seen0, findings0, inputs, rest, seen, findings)
    requires ledger in rest && exists i :: 0 <= i < |inputs| && inputs[i].ledger == ledger
    ensures var hashes := HashesAt(inputs, ledger); var c := Conflict(ledger, hashes);
            if 2 <= |hashes| then
              Visited(seen0, findings0, inputs, rest - {ledger}, seen + {Key(c)},
                      if Key(c) in seen then findings else findings + [c])
            else Visited(seen0, findings0, inputs, rest - {ledger}, seen, findings)
  {
    hide Reported, Key;
    ConflictAt(inputs, rest, ledger);
    var hashes := HashesAt(inputs, ledger);
    if |hashes| < 2 {
      assert ConflictsOutside(inputs, rest - {ledger}) == ConflictsOutside(inputs, rest);
    } else {
      ReportOneMore(seen0, findings0, ConflictsOutside(inputs, rest), seen, findings, Conflict(ledger, hashes));
    }
  }

  /** The conflicts at ledgers already visited. */
  ghost function ConflictsOutside(inputs: seq<Input>, rest: set<int>): set<Conflict> {
    set c | c in Conflicts(inputs) && c.ledger !in rest
  }

  lemma ConflictAt(inputs: seq<Input>, rest: set<int>, ledger: int)
    requires ledger in rest && exists i :: 0 <= i < |inputs| && inputs[i].ledger == ledger
    ensures ConflictsOutside(inputs, rest - {ledger})
            == ConflictsOutside(inputs, rest) +
               if 2 <= |HashesAt(inputs, ledger)| then {Conflict(ledger, HashesAt(inputs, ledger))} else {}
  {
    var i :| 0 <= i < |inputs| && inputs[i].ledger == ledger;
    if 2 <= |HashesAt(inputs, ledger)| {
      assert Conflict(ledger, HashesAt(inputs, ledger)) in Conflicts(inputs);
    }
  }

  method GroupByLedger(inputs: seq<Input>) returns (bySeq: map<int, seq<Input>>)
    ensures forall q :: q in bySeq <==> exists i :: 0 <= i < |inputs| && inputs[i].ledger == q
    ensures forall q :: q in bySeq ==> HashesOf(bySeq[q]) == HashesAt(inputs, q)
  {
    bySeq := map[];
    for i := 0 to |inputs|
      invariant forall q :: q in bySeq <==> exists j :: 0 <= j < i && inputs[j].ledger == q
      invariant forall q :: q in bySeq ==> HashesOf(bySeq[q]) == HashesAt(inputs[..i], q)
    {
      var x := inputs[i];
      var group := if x.ledger in bySeq then bySeq[x.ledger] else [];
      assert inputs[..i + 1] == inputs[..i] + [x];
      forall q
        ensures HashesAt(inputs[..i + 1], q) == HashesAt(inputs[..i], q) + if x.ledger == q then {x.hash} else {}
      {
        HashesAppend(inputs[..i], x, q);
      }
      HashesAppend(group, x, x.ledger);
      bySeq := bySeq[x.ledger := group + [x]];
    }
    assert inputs[..|inputs|] == inputs;
  }

  method HashSet(group: seq<Input>) returns (hashes: set<string>)
    ensures hashes == HashesOf(group)
  {
    hashes := {};
    for i := 0 to |group|
      invariant hashes == HashesOf(group[..i])
    {
      HashesAppend(group[..i], group[i], group[i].ledger);
      assert group[..i + 1] == group[..i] + [group[i]];
      hashes := hashes + {group[i].hash};
    }
    assert group[..|group|] == group;
  }

  // ---------------------------------------------------------------------------------------------
  // The key
  // ---------------------------------------------------------------------------------------------

  ghost predicate WellFormed(c: Conflict) {
    2 <= |c.hashes| && forall h :: h in c.hashes ==> '|' !in h
  }

  /** The key tells conflicts apart, as long as no hash contains the separator. */
  lemma KeyInjective(c: Conflict, d: Conflict)
    requires WellFormed(c) && WellFormed(d) && Key(c) == Key(d)
    ensures c == d
  {
    KeyParts(c.ledger, Join(Listing(c.hashes), '|'), d.ledger, Join(Listing(d.hashes), '|'));
    ListingInjective(c.hashes, d.hashes);
  }

  lemma KeyParts(m: int, x: string, n: int, y: string)
    requires Decimal(m) + [':'] + x == Decimal(n) + [':'] + y
    ensures m == n && x == y
  {
    DecimalHasNoColon(m);
    DecimalHasNoColon(n);
    SplitUnique(Decimal(m), x, Decimal(n), y, ':');
    DecimalInjective(m, n);
  }

  lemma ListingInjective(xs: set<string>, ys: set<string>)
    requires xs != {} && ys != {} && (forall h :: h in xs + ys ==> '|' !in h)
    requires Join(Listing(xs), '|') == Join(Listing(ys), '|')
    ensures xs == ys
  {
    var x, y := Listing(xs), Listing(ys);
    NonEmptyListing(xs);
    NonEmptyListing(ys);
    assert forall i :: 0 <= i < |x| ==> x[i] in x;
    assert forall i :: 0 <= i < |y| ==> y[i] in y;
    JoinInjective(x, y, '|');
  }

  lemma NonEmptyListing(xs: set<string>)
    requires xs != {}
    ensures Listing(xs) != [] && Enumerates(Listing(xs), xs)
  {
    ListingOf(xs);
    var x :| x in xs;
    assert x in Listing(xs);
  }

  /** Without that the key is ambiguous: two different conflicts at one ledger, one key, so the
      second is never reported. */
  lemma SeparatorCollides()
    ensures var c, d := Conflict(7, {"a|b", "c"}), Conflict(7, {"a", "b|c"});
            c != d && |c.hashes| == |d.hashes| == 2 && Key(c) == Key(d)
  {
    var c, d := Conflict(7, {"a|b", "c"}), Conflict(7, {"a", "b|c"});
    assert "c" in c.hashes && "c" !in d.hashes;
    PairListing("a|b", "c");
    PairListing("a", "b|c");
    assert Join(["a|b", "c"], '|') == "a|b|c" == Join(["a", "b|c"], '|') by {
      assert ["a|b", "c"][1..] == ["c"] && ["a", "b|c"][1..] == ["b|c"];
    }
  }

  lemma PairListing(x: string, y: string)
    requires x != [] && y != [] && x[0] < y[0]
    ensures Listing({x, y}) == [x, y] && |{x, y}| == 2
  {
    SortedListing([x, y], {x, y});
    assert [x, y][1..] == [y] && [y][1..] == [];
    assert Sort([y]) == [y];
    assert Sort([x, y]) == Insert(x, [y]);
  }

  // ---------------------------------------------------------------------------------------------
  // Whole runs
  // ---------------------------------------------------------------------------------------------

  datatype Memory = Memory(seen: set<string>, findings: seq<Conflict>)

  ghost predicate TickAt(memories: seq<Memory>, snapshots: seq<seq<Input>>, i: nat)
    requires |memories| == |snapshots| + 1 && i < |snapshots|
  {
    Ticks(memories[i].seen, memories[i].findings, snapshots[i], memories[i + 1].seen, memories[i + 1].findings)
  }

  /** The oracle's memory along any succession of snapshots. */
  ghost predicate IsRun(memories: seq<Memory>, snapshots: seq<seq<Input>>) {
    && |memories| == |snapshots| + 1
    && memories[0] == Memory({}, [])
    && forall i :: 0 <= i < |snapshots| ==> TickAt(memories, snapshots, i)
  }

  ghost predicate SeparatorFree(snapshots: seq<seq<Input>>) {
    forall i, j :: 0 <= i < |snapshots| && 0 <= j < |snapshots[i]| ==> '|' !in snapshots[i][j].hash
  }

  /** The conflicts present at any of the first `n` ticks. */
  ghost function EverPresent(snapshots: seq<seq<Input>>, n: nat): set<Conflict>
    requires n <= |snapshots|
  {
    if n == 0 then {} else EverPresent(snapshots, n - 1) + Conflicts(snapshots[n - 1])
  }

  lemma ConflictsWellFormed(inputs: seq<Input>)
    requires forall j :: 0 <= j < |inputs| ==> '|' !in inputs[j].hash
    ensures forall c :: c in Conflicts(inputs) ==> WellFormed(c)
  {
  }

  lemma {:induction false} EverWellFormed(snapshots: seq<seq<Input>>, n: nat)
    requires n <= |snapshots| && SeparatorFree(snapshots)
    ensures forall c :: c in EverPresent(snapshots, n) ==> WellFormed(c)
  {
    if 0 < n {
      EverWellFormed(snapshots, n - 1);
      ConflictsWellFormed(snapshots[n - 1]);
    }
  }

  ghost function Found(findings: seq<Conflict>): set<Conflict> {
    set i | 0 <= i < |findings| :: findings[i]
  }

  /** The findings added along a run are exactly the conflicts ever present at a tick, each once. */
  lemma {:induction false} FindingsAreConflictsEverPresent(memories: seq<Memory>, snapshots: seq<seq<Input>>, n: nat)
    requires IsRun(memories, snapshots) && SeparatorFree(snapshots) && n <= |snapshots|
    ensures memories[n].seen == Keys(EverPresent(snapshots, n))
    ensures Found(memories[n].findings) == EverPresent(snapshots, n)
    ensures forall i, j :: 0 <= i < j < |memories[n].findings| ==> memories[n].findings[i] != memories[n].findings[j]
    ensures |memories[n].findings| == |EverPresent(snapshots, n)|
  {
    if 0 < n {
      FindingsAreConflictsEverPresent(memories, snapshots, n - 1);
      EverWellFormed(snapshots, n);
      assert TickAt(memories, snapshots, n - 1);
      var old_, new_ := EverPresent(snapshots, n - 1), Conflicts(snapshots[n - 1]);
      ReportExtends(memories[n - 1], memories[n], old_, new_);
    }
    DistinctCount(memories[n].findings);
  }

  /** Each conflict present has its own finding afterwards: a key seen before belongs to it. */
  lemma PresentIsFound(m: Memory, m': Memory, reported: set<Conflict>, present: set<Conflict>, c: Conflict)
    requires forall d :: d in reported + present ==> WellFormed(d)
    requires m.seen == Keys(reported) && Reported(m.seen, m.findings, present, m'.seen, m'.findings)
    requires c in present && c !in reported
    ensures c in m'.findings
  {
    var added := m'.findings[|m.findings|..];
    if Key(c) in m.seen {
      var d :| d in reported && Key(d) == Key(c);
      KeyInjective(c, d);
      assert false;
    }
    assert HasKey(added, Key(c));
    var i :| 0 <= i < |added| && Key(added[i]) == Key(c);
    KeyInjective(c, added[i]);
    assert m'.findings[|m.findings| + i] == c;
  }

  lemma FoundSplits(xs: seq<Conflict>, ys: seq<Conflict>)
    ensures Found(xs + ys) == Found(xs) + Found(ys)
  {
    var all := xs + ys;
    forall c | c in Found(xs) + Found(ys)
      ensures c in Found(all)
    {
      if c in Found(xs) {
        var i :| 0 <= i < |xs| && xs[i] == c;
        assert all[i] == c;
      } else {
        var i :| 0 <= i < |ys| && ys[i] == c;
        assert all[|xs| + i] == c;
      }
    }
  }

  lemma FoundExtends(m: Memory, m': Memory, reported: set<Conflict>, present: set<Conflict>)
    requires forall c :: c in reported + present ==> WellFormed(c)
    requires m.seen == Keys(reported) && Found(m.findings) == reported
    requires Reported(m.seen, m.findings, present, m'.seen, m'.findings)
    ensures Found(m'.findings) == reported + present
  {
    hide Key, WellFormed, Keys, HasKey;
    assert m'.findings == m.findings + m'.findings[|m.findings|..];
    AddedAreNew(m, m', reported, present);
    FoundSplits(m.findings, m'.findings[|m.findings|..]);
    AllPresentFound(m, m', reported, present);
  }

  lemma AllPresentFound(m: Memory, m': Memory, reported: set<Conflict>, present: set<Conflict>)
    requires forall c :: c in reported + present ==> WellFormed(c)
    requires m.seen == Keys(reported) && Reported(m.seen, m.findings, present, m'.seen, m'.findings)
    ensures present - reported <= Found(m'.findings)
  {
    forall c | c in present - reported
      ensures c in Found(m'.findings)
    {
      PresentIsFound(m, m', reported, present, c);
    }
  }

  lemma ReportExtends(m: Memory, m': Memory, reported: set<Conflict>, present: set<Conflict>)
    requires forall c :: c in reported + present ==> WellFormed(c)
    requires m.seen == Keys(reported) && Found(m.findings) == reported
    requires forall i, j :: 0 <= i < j < |m.findings| ==> m.findings[i] != m.findings[j]
    requires Reported(m.seen, m.findings, present, m'.seen, m'.findings)
    ensures m'.seen == Keys(reported + present) && Found(m'.findings) == reported + present
    ensures forall i, j :: 0 <= i < j < |m'.findings| ==> m'.findings[i] != m'.findings[j]
  {
    hide Key, WellFormed, Found, Keys;
    FoundExtends(m, m', reported, present);
    AddedAreNew(m, m', reported, present);
    DistinctJoin(m.findings, m'.findings[|m.findings|..]);
    assert m'.findings == m.findings + m'.findings[|m.findings|..];
    KeysUnion(reported, present);
  }

  lemma KeysUnion(xs: set<Conflict>, ys: set<Conflict>)
    ensures Keys(xs + ys) == Keys(xs) + Keys(ys)
  {
  }

  lemma AddedAreNew(m: Memory, m': Memory, reported: set<Conflict>, present: set<Conflict>)
    requires m.seen == Keys(reported) && Reported(m.seen, m.findings, present, m'.seen, m'.findings)
    ensures var added := Found(m'.findings[|m.findings|..]);
            added <= present && added !! reported
    ensures var added := m'.findings[|m.findings|..];
            forall i, j :: 0 <= i < j < |added| ==> added[i] != added[j]
  {
    var added := m'.findings[|m.findings|..];
    forall i | 0 <= i < |added|
      ensures added[i] in present && added[i] !in reported
    {
      assert Key(added[i]) !in m.seen;
    }
  }

  lemma DistinctJoin(xs: seq<Conflict>, ys: seq<Conflict>)
    requires forall i, j :: 0 <= i < j < |xs| ==> xs[i] != xs[j]
    requires forall i, j :: 0 <= i < j < |ys| ==> ys[i] != ys[j]
    requires Found(xs) !! Found(ys)
    ensures forall i, j :: 0 <= i < j < |xs + ys| ==> (xs + ys)[i] != (xs + ys)[j]
  {
    assert forall i :: 0 <= i < |xs| ==> xs[i] in Found(xs);
    assert forall i :: 0 <= i < |ys| ==> ys[i] in Found(ys);
  }

  lemma {:induction false} DistinctCount(findings: seq<Conflict>)
    requires forall i, j :: 0 <= i < j < |findings| ==> findings[i] != findings[j]
    ensures |Found(findings)| == |findings|
  {
    if findings != [] {
      var n := |findings| - 1;
      DistinctCount(findings[..n]);
      assert Found(findings) == Found(findings[..n]) + {findings[n]};
      assert findings[n] !in Found(findings[..n]);
    }
  }

  lemma TwoMembers(xs: set<string>) returns (x: string, y: string)
    requires 2 <= |xs|
    ensures x in xs && y in xs && x != y
  {
    x :| x in xs;
    assert |xs - {x}| == |xs| - 1;
    y :| y in xs - {x};
  }

  /** Whatever the hashes look like, a finding never lacks two different hashes that a snapshot of
      an earlier tick gives for its ledger. */
  lemma {:induction false} FindingsAreGenuine(memories: seq<Memory>, snapshots: seq<seq<Input>>, n: nat)
    requires IsRun(memories, snapshots) && n <= |snapshots|
    ensures forall i :: 0 <= i < |memories[n].findings| ==> Witnessed(snapshots, n, memories[n].findings[i])
  {
    if 0 < n {
      FindingsAreGenuine(memories, snapshots, n - 1);
      assert TickAt(memories, snapshots, n - 1);
      var m, m' := memories[n - 1], memories[n];
      forall i | 0 <= i < |m'.findings|
        ensures Witnessed(snapshots, n, m'.findings[i])
      {
        if i < |m.findings| {
          assert m'.findings[i] == m.findings[i];
        } else {
          var c := m'.findings[i];
          assert c == m'.findings[|m.findings|..][i - |m.findings|];
          var x, y := TwoMembers(c.hashes);
          var j :| 0 <= j < |snapshots[n - 1]| && snapshots[n - 1][j].ledger == c.ledger && snapshots[n - 1][j].hash == x;
          var k :| 0 <= k < |snapshots[n - 1]| && snapshots[n - 1][k].ledger == c.ledger && snapshots[n - 1][k].hash == y;
          assert Disagree(snapshots[n - 1], c.ledger, j, k);
        }
      }
    }
  }

  ghost predicate Disagree(inputs: seq<Input>, ledger: int, j: nat, k: nat) {
    && j < |inputs| && k < |inputs| && inputs[j].ledger == inputs[k].ledger == ledger
    && inputs[j].hash != inputs[k].hash
  }

  ghost predicate Witnessed(snapshots: seq<seq<Input>>, n: nat, c: Conflict)
    requires n <= |snapshots|
  {
    exists i, j, k :: 0 <= i < n && Disagree(snapshots[i], c.ledger, j, k)
  }

  /** Two nodes that disagree on a ledger at a tick: the finding is there when the tick ends. */
  lemma ForkIsReported(memories: seq<Memory>, snapshots: seq<seq<Input>>, n: nat, ledger: int, j: nat, k: nat)
    requires IsRun(memories, snapshots) && SeparatorFree(snapshots) && n < |snapshots|
    requires Disagree(snapshots[n], ledger, j, k)
    ensures Conflict(ledger, HashesAt(snapshots[n], ledger)) in Found(memories[n + 1].findings)
  {
    var inputs := snapshots[n];
    var hashes := HashesAt(inputs, ledger);
    assert {inputs[j].hash, inputs[k].hash} <= hashes;
    assert 2 <= |hashes| by {
      SubsetCount({inputs[j].hash, inputs[k].hash}, hashes);
    }
    assert Conflict(ledger, hashes) in Conflicts(inputs);
    FindingsAreConflictsEverPresent(memories, snapshots, n + 1);
  }

  /** `c` is what the inputs of one snapshot say of its ledger: two hashes or more, and all of them. */
  ghost predicate SaidOf(inputs: seq<Input>, c: Conflict) {
    && (forall h :: h in c.hashes <==> exists i :: 0 <= i < |inputs| && inputs[i].ledger == c.ledger && inputs[i].hash == h)
    && (exists g, h :: g in c.hashes && h in c.hashes && g != h)
  }

  lemma SaidIsConflict(inputs: seq<Input>, c: Conflict)
    ensures SaidOf(inputs, c) <==> c in Conflicts(inputs)
  {
    if SaidOf(inputs, c) {
      var g, h :| g in c.hashes && h in c.hashes && g != h;
      SubsetCount({g, h}, c.hashes);
      assert c.hashes == HashesAt(inputs, c.ledger);
      var i :| 0 <= i < |inputs| && inputs[i].ledger == c.ledger && inputs[i].hash == g;
      assert c in Conflicts(inputs);
    }
    if c in Conflicts(inputs) {
      var g, h := TwoMembers(c.hashes);
      assert c.hashes == HashesAt(inputs, c.ledger);
    }
  }

  lemma {:induction false} EverSaid(snapshots: seq<seq<Input>>, n: nat, c: Conflict)
    requires n <= |snapshots|
    ensures c in EverPresent(snapshots, n) <==> exists i :: 0 <= i < n && SaidOf(snapshots[i], c)
  {
    hide SaidOf, Conflicts;
    if 0 < n {
      EverSaid(snapshots, n - 1, c);
      SaidIsConflict(snapshots[n - 1], c);
    }
  }

  /** The findings by the inputs: a conflict is reported exactly when the inputs of some tick so far
      said it, each once. */
  lemma FindingsByInputs(memories: seq<Memory>, snapshots: seq<seq<Input>>, n: nat, c: Conflict)
    requires IsRun(memories, snapshots) && SeparatorFree(snapshots) && n <= |snapshots|
    ensures c in memories[n].findings <==> exists i :: 0 <= i < n && SaidOf(snapshots[i], c)
    ensures forall j, k :: 0 <= j < k < |memories[n].findings| ==> memories[n].findings[j] != memories[n].findings[k]
  {
    FindingsAreConflictsEverPresent(memories, snapshots, n);
    EverSaid(snapshots, n, c);
    assert c in Found(memories[n].findings) <==> c in memories[n].findings;
  }
}
