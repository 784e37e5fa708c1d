/** Waiting for every node to advance and agree on one validated ledger. */
module Readiness {
  import opened Sets
  import opened Wrappers

  // ---------------------------------------------------------------------------------------------
  // Replies
  // ---------------------------------------------------------------------------------------------

  /** A string comes with what int() makes of it. */
  datatype Json =
    | Null
    | Bool(flag: bool)
    | Int(n: int)
    | Float(r: real)
    | Str(text: string, number: Option<int>)
    | Arr(items: seq<Json>)
    | Obj(fields: map<string, Json>)

  /** What a call answers: a result object, or nothing but an error. */
  datatype Reply = Failed | Result(fields: map<string, Json>)

  /** int(): numbers are truncated toward zero, text is parsed, the rest is refused. */
  function AsInt(j: Json): (r: Option<int>)
    ensures forall n :: r == Some(n) <==> Reads(j, n)
  {
    match j
    case Int(n) => Some(n)
    case Float(r) => Some(if r >= 0.0 then r.Floor else -(-r).Floor)
    case Str(_, number) => number
    case _ => None
  }

  ghost predicate Reads(j: Json, n: int) {
    || j == Int(n)
    || (j.Float? && 0.0 <= j.r && n as real <= j.r < n as real + 1.0)
    || (j.Float? && j.r < 0.0 && n as real - 1.0 < j.r <= n as real)
    || (j.Str? && j.number == Some(n))
  }

  function UpperChar(c: char): char {
    if 'a' <= c <= 'z' then (c as int - 32) as char else c
  }

  function Upper(s: string): (r: string)
    ensures |r| == |s|
  {
    seq(|s|, i requires 0 <= i < |s| => UpperChar(s[i]))
  }

  /** The same letters, whatever their case. */
  ghost predicate EqualFold(s: string, t: string) {
    |s| == |t| && forall i :: 0 <= i < |s| ==> SameLetter(s[i], t[i])
  }

  ghost predicate SameLetter(c: char, d: char) {
    || c == d
    || ('a' <= c <= 'z' && c as int - 'a' as int == d as int - 'A' as int)
    || ('a' <= d <= 'z' && d as int - 'a' as int == c as int - 'A' as int)
  }

  ghost predicate NoLowerCase(s: string) {
    forall i :: 0 <= i < |s| ==> !('a' <= s[i] <= 'z')
  }

  lemma UpperFolds(s: string, t: string)
    ensures EqualFold(s, Upper(s)) && NoLowerCase(Upper(s))
    ensures Upper(s) == Upper(t) <==> EqualFold(s, t)
  {
    forall i | 0 <= i < |s|
      ensures SameLetter(s[i], Upper(s)[i]) && !('a' <= Upper(s)[i] <= 'z')
    {
      assert Upper(s)[i] == UpperChar(s[i]);
    }
    if |s| == |t| {
      assert Upper(s) == Upper(t) <==> forall i :: 0 <= i < |s| ==> Upper(s)[i] == Upper(t)[i];
      forall i | 0 <= i < |s|
        ensures Upper(s)[i] == Upper(t)[i] <==> SameLetter(s[i], t[i])
      {
        assert Upper(s)[i] == UpperChar(s[i]) && Upper(t)[i] == UpperChar(t[i]);
      }
    }
  }

  function Text(j: Json): Option<string> {
    if j.Str? && j.text != "" then Some(Upper(j.text)) else None
  }

  function Get(fields: map<string, Json>, key: string, other: Json): Json {
    if key in fields then fields[key] else other
  }

  /** `ledger` is the validated ledger of a server_info reply, under info or, without one, in the
      result itself. */
  ghost predicate Reports(reply: Reply, ledger: map<string, Json>) {
    && reply.Result?
    && if "info" in reply.fields then
         reply.fields["info"].Obj? && Has(reply.fields["info"].fields, "validated_ledger", Obj(ledger))
       else Has(reply.fields, "validated_ledger", Obj(ledger))
  }

  ghost predicate Has(fields: map<string, Json>, key: string, j: Json) {
    key in fields && fields[key] == j
  }

  /** A sequence that int() accepts, at least 1, and a hash that is a string and not empty. */
  ghost predicate Complete(ledger: map<string, Json>, n: int) {
    && "seq" in ledger && AsInt(ledger["seq"]) == Some(n) && 1 <= n
    && "hash" in ledger && ledger["hash"].Str? && ledger["hash"].text != ""
  }

  /** The sequence of a server_info reply, if it names a complete validated ledger. */
  function ValidatedSeq(reply: Reply): (r: Option<int>)
    ensures forall n :: r == Some(n) <==> exists ledger :: Reports(reply, ledger) && Complete(ledger, n)
  {
    if reply.Failed? then None
    else
      var info := Get(reply.fields, "info", Obj(reply.fields));
      if !info.Obj? then None
      else
        var ledger := Get(info.fields, "validated_ledger", Null);
        if !ledger.Obj? then None
        else
          assert Reports(reply, ledger.fields);
          var n := AsInt(Get(ledger.fields, "seq", Null));
          if n.Some? && 1 <= n.value && Text(Get(ledger.fields, "hash", Null)).Some? then
            assert Complete(ledger.fields, n.value);
            n
          else None
  }

  /** `text` is the hash of a ledger reply as it is spelled there. */
  ghost predicate Spells(reply: Reply, text: string) {
    && reply.Result? && "ledger" in reply.fields && reply.fields["ledger"].Obj? && text != ""
    && var ledger := reply.fields["ledger"].fields;
       var key := if "ledger_hash" in ledger then "ledger_hash" else "hash";
       key in ledger && ledger[key].Str? && ledger[key].text == text
  }

  /** The upper-cased hash of a ledger reply; only a missing ledger_hash falls back to hash. */
  function LedgerHash(reply: Reply): (r: Option<string>)
    ensures r.Some? <==> exists text :: Spells(reply, text)
    ensures forall text :: Spells(reply, text) ==> r == Some(Upper(text))
  {
    if reply.Failed? then None
    else
      var ledger := Get(reply.fields, "ledger", Null);
      if !ledger.Obj? then None
      else
        var hash := Get(ledger.fields, "ledger_hash", Get(ledger.fields, "hash", Null));
        assert Text(hash).Some? ==> Spells(reply, hash.text);
        Text(hash)
  }

  // ---------------------------------------------------------------------------------------------
  // The protocol
  // ---------------------------------------------------------------------------------------------

  /** One turn of the loop: the clock at its start, each node's answer to server_info, the answer
      each would give to a query for the target, and the clock at its end. */
  datatype Round = Round(now: real, infos: seq<Reply>, ledgers: seq<Reply>, later: real) {
    ghost function SeqOf(i: nat): Option<int> {
      if i < |infos| then ValidatedSeq(infos[i]) else None
    }

    ghost function HashOf(i: nat): Option<string> {
      if i < |ledgers| then LedgerHash(ledgers[i]) else None
    }
  }

  datatype NodeState = NodeState(baseline: Option<int>, sequence: Option<int>, error: bool, hash: Option<string>) {
    function Polled(reply: Reply): NodeState {
      var n := ValidatedSeq(reply);
      if n.None? then this.(error := true, hash := None)
      else NodeState(if baseline.None? then n else baseline, n, false, None)
    }

    predicate Advanced() {
      baseline.Some? && sequence.Some? && baseline.value < sequence.value
    }
  }

  datatype Report = Report(sequence: int, hash: string)

  datatype Outcome =
    | Rejected
    | Ready(round: nat, ledger: int, hash: string, nodes: seq<Report>)
    | TimedOut(round: nat)
    | StillWaiting

  datatype Config = Config(nodes: nat, timeout: real, poll: real, start: real) {
    /** How long the loop sleeps after a round that ended at `later`. */
    function Pause(later: real): real {
      var remaining := start + timeout - later;
      if remaining <= 0.0 then 0.0 else if poll < remaining then poll else remaining
    }

    ghost predicate Fits(rounds: seq<Round>) {
      forall k :: 0 <= k < |rounds| ==> RoundFits(rounds[k])
    }

    predicate RoundFits(round: Round) {
      |round.infos| == nodes && |round.ledgers| == nodes
    }
  }

  // ---------------------------------------------------------------------------------------------
  // What a run is, said on the replies alone
  // ---------------------------------------------------------------------------------------------

  /** The first and the last sequence node `i` has reported in the first `n` rounds. */
  ghost function FirstSeq(rounds: seq<Round>, i: nat, n: nat): Option<int>
    requires n <= |rounds|
  {
    if n == 0 then None
    else
      var before := FirstSeq(rounds, i, n - 1);
      if before.Some? then before else rounds[n - 1].SeqOf(i)
  }

  ghost function LastSeq(rounds: seq<Round>, i: nat, n: nat): Option<int>
    requires n <= |rounds|
  {
    if n == 0 then None
    else
      var latest := rounds[n - 1].SeqOf(i);
      if latest.Some? then latest else LastSeq(rounds, i, n - 1)
  }

  ghost predicate PastBaseline(rounds: seq<Round>, i: nat, n: nat)
    requires n <= |rounds|
  {
    FirstSeq(rounds, i, n).Some? && LastSeq(rounds, i, n).Some? && FirstSeq(rounds, i, n).value < LastSeq(rounds, i, n).value
  }

  ghost predicate AllPast(c: Config, rounds: seq<Round>, n: nat)
    requires n <= |rounds|
  {
    forall i: nat :: i < c.nodes ==> PastBaseline(rounds, i, n)
  }

  ghost predicate IsLeastSeq(c: Config, rounds: seq<Round>, n: nat, t: int)
    requires n <= |rounds|
  {
    && (forall i: nat :: i < c.nodes ==> LastSeq(rounds, i, n).Some? && t <= LastSeq(rounds, i, n).value)
    && (exists i: nat :: i < c.nodes && LastSeq(rounds, i, n) == Some(t))
  }

  /** `t` was selected in one of the first `n` rounds: the first after which every node was past
      its baseline, as the least of the sequences then known. */
  ghost predicate IsTarget(c: Config, rounds: seq<Round>, n: nat, t: int)
    requires n <= |rounds|
  {
    exists m: nat :: SelectedAt(c, rounds, n, t, m)
  }

  ghost predicate SelectedAt(c: Config, rounds: seq<Round>, n: nat, t: int, m: nat)
    requires n <= |rounds|
  {
    && 0 < m <= n && AllPast(c, rounds, m) && IsLeastSeq(c, rounds, m, t)
    && forall l: nat :: l < m ==> !AllPast(c, rounds, l)
  }

  /** In this one round node `i` reported at least `t` and gave `h` for ledger `t`. */
  ghost predicate Confirms(round: Round, i: nat, t: int, h: string)
  {
    round.SeqOf(i).Some? && t <= round.SeqOf(i).value && round.HashOf(i) == Some(h)
  }

  ghost predicate Agreed(c: Config, round: Round, t: int, h: string)
  {
    forall i: nat :: i < c.nodes ==> Confirms(round, i, t, h)
  }

  /** Round `k` ends the wait, with target `t` and hash `h`. */
  ghost predicate Succeeds(c: Config, rounds: seq<Round>, k: nat, t: int, h: string)
    requires k < |rounds|
  {
    IsTarget(c, rounds, k + 1, t) && Agreed(c, rounds[k], t, h)
  }

  /** The first `k` rounds neither ran out of time nor succeeded. */
  ghost predicate Undecided(c: Config, rounds: seq<Round>, k: nat)
    requires k <= |rounds|
  {
    forall j: nat :: j < k ==> rounds[j].now < c.start + c.timeout && Fruitless(c, rounds, j)
  }

  ghost predicate Fruitless(c: Config, rounds: seq<Round>, j: nat)
    requires j < |rounds|
  {
    forall t, h :: !Succeeds(c, rounds, j, t, h)
  }

  // ---------------------------------------------------------------------------------------------
  // The same, on what the nodes wrote
  // ---------------------------------------------------------------------------------------------

  /** In round `j` node `i` named a complete validated ledger, of number `n`. */
  ghost predicate Named(rounds: seq<Round>, i: nat, j: nat, n: int) {
    j < |rounds| && i < |rounds[j].infos| && exists ledger :: Reports(rounds[j].infos[i], ledger) && Complete(ledger, n)
  }

  ghost predicate Silent(rounds: seq<Round>, i: nat, j: nat) {
    forall n :: !Named(rounds, i, j, n)
  }

  lemma NamedIsSeq(rounds: seq<Round>, i: nat, j: nat, n: int)
    requires j < |rounds|
    ensures Named(rounds, i, j, n) <==> rounds[j].SeqOf(i) == Some(n)
  {
  }

  lemma SilentIsNone(rounds: seq<Round>, i: nat, j: nat)
    requires j < |rounds|
    ensures Silent(rounds, i, j) <==> rounds[j].SeqOf(i) == None
  {
    hide Named;
    if rounds[j].SeqOf(i).Some? {
      NamedIsSeq(rounds, i, j, rounds[j].SeqOf(i).value);
    } else {
      forall n
        ensures !Named(rounds, i, j, n)
      {
        NamedIsSeq(rounds, i, j, n);
      }
    }
  }

  ghost predicate FirstNamed(rounds: seq<Round>, i: nat, n: nat, a: nat, first: int) {
    a < n && Named(rounds, i, a, first) && forall j: nat :: j < a ==> Silent(rounds, i, j)
  }

  ghost predicate LastNamed(rounds: seq<Round>, i: nat, n: nat, b: nat, latest: int) {
    b < n && Named(rounds, i, b, latest) && forall j: nat :: b < j < n ==> Silent(rounds, i, j)
  }

  lemma {:induction false} FirstSeqOf(rounds: seq<Round>, i: nat, n: nat, a: nat)
    requires n <= |rounds| && a < n && rounds[a].SeqOf(i).Some?
    requires forall j: nat :: j < a ==> rounds[j].SeqOf(i) == None
    ensures FirstSeq(rounds, i, a) == None && FirstSeq(rounds, i, n) == rounds[a].SeqOf(i)
  {
    if a < n - 1 {
      FirstSeqOf(rounds, i, n - 1, a);
    } else {
      NoSeq(rounds, i, a);
    }
  }

  lemma {:induction false} NoSeq(rounds: seq<Round>, i: nat, n: nat)
    requires n <= |rounds| && forall j: nat :: j < n ==> rounds[j].SeqOf(i) == None
    ensures FirstSeq(rounds, i, n) == None
  {
    if 0 < n {
      NoSeq(rounds, i, n - 1);
    }
  }

  lemma {:induction false} FirstSeqAt(rounds: seq<Round>, i: nat, n: nat) returns (a: nat)
    requires n <= |rounds| && FirstSeq(rounds, i, n).Some?
    ensures a < n && rounds[a].SeqOf(i) == FirstSeq(rounds, i, n)
    ensures forall j: nat :: j < a ==> rounds[j].SeqOf(i) == None
  {
    if FirstSeq(rounds, i, n - 1).Some? {
      a := FirstSeqAt(rounds, i, n - 1);
    } else {
      a := n - 1;
      forall j: nat | j < a
        ensures rounds[j].SeqOf(i) == None
      {
        SeqFrom(rounds, i, j, a);
      }
    }
  }

  lemma {:induction false} SeqFrom(rounds: seq<Round>, i: nat, j: nat, n: nat)
    requires j < n <= |rounds| && FirstSeq(rounds, i, n) == None
    ensures rounds[j].SeqOf(i) == None
  {
    if j < n - 1 {
      SeqFrom(rounds, i, j, n - 1);
    }
  }

  lemma FirstSeqIs(rounds: seq<Round>, i: nat, n: nat, v: int)
    requires n <= |rounds|
    ensures FirstSeq(rounds, i, n) == Some(v) <==> exists a: nat :: FirstNamed(rounds, i, n, a, v)
  {
    hide Named, Silent;
    forall j: nat | j < n
      ensures Silent(rounds, i, j) <==> rounds[j].SeqOf(i) == None
      ensures Named(rounds, i, j, v) <==> rounds[j].SeqOf(i) == Some(v)
    {
      SilentIsNone(rounds, i, j);
      NamedIsSeq(rounds, i, j, v);
    }
    if FirstSeq(rounds, i, n) == Some(v) {
      var a := FirstSeqAt(rounds, i, n);
      assert FirstNamed(rounds, i, n, a, v);
    }
    if a: nat :| FirstNamed(rounds, i, n, a, v) {
      FirstSeqOf(rounds, i, n, a);
    }
  }

  lemma {:induction false} LastSeqOf(rounds: seq<Round>, i: nat, n: nat, b: nat)
    requires n <= |rounds| && b < n && rounds[b].SeqOf(i).Some?
    requires forall j: nat :: b < j < n ==> rounds[j].SeqOf(i) == None
    ensures LastSeq(rounds, i, n) == rounds[b].SeqOf(i)
  {
    if b < n - 1 {
      LastSeqOf(rounds, i, n - 1, b);
    }
  }

  lemma {:induction false} LastSeqAt(rounds: seq<Round>, i: nat, n: nat) returns (b: nat)
    requires n <= |rounds| && LastSeq(rounds, i, n).Some?
    ensures b < n && rounds[b].SeqOf(i) == LastSeq(rounds, i, n)
    ensures forall j: nat :: b < j < n ==> rounds[j].SeqOf(i) == None
  {
    b := n - 1;
    if rounds[n - 1].SeqOf(i).None? {
      b := LastSeqAt(rounds, i, n - 1);
    }
  }

  lemma LastSeqIs(rounds: seq<Round>, i: nat, n: nat, v: int)
    requires n <= |rounds|
    ensures LastSeq(rounds, i, n) == Some(v) <==> exists b: nat :: LastNamed(rounds, i, n, b, v)
  {
    hide Named, Silent;
    forall j: nat | j < n
      ensures Silent(rounds, i, j) <==> rounds[j].SeqOf(i) == None
      ensures Named(rounds, i, j, v) <==> rounds[j].SeqOf(i) == Some(v)
    {
      SilentIsNone(rounds, i, j);
      NamedIsSeq(rounds, i, j, v);
    }
    if LastSeq(rounds, i, n) == Some(v) {
      var b := LastSeqAt(rounds, i, n);
      assert LastNamed(rounds, i, n, b, v);
    }
    if b: nat :| LastNamed(rounds, i, n, b, v) {
      LastSeqOf(rounds, i, n, b);
    }
  }

  /** Past its baseline: the ledger a node named last is above the one it named first. */
  lemma PastBaselineIs(rounds: seq<Round>, i: nat, n: nat)
    requires n <= |rounds|
    ensures PastBaseline(rounds, i, n)
            <==> exists a: nat, b: nat, first, latest ::
                   FirstNamed(rounds, i, n, a, first) && LastNamed(rounds, i, n, b, latest) && first < latest
  {
    hide FirstNamed, LastNamed;
    if PastBaseline(rounds, i, n) {
      FirstSeqIs(rounds, i, n, FirstSeq(rounds, i, n).value);
      LastSeqIs(rounds, i, n, LastSeq(rounds, i, n).value);
    }
    if a: nat, b: nat, first, latest :|
       FirstNamed(rounds, i, n, a, first) && LastNamed(rounds, i, n, b, latest) && first < latest {
      FirstSeqIs(rounds, i, n, first);
      LastSeqIs(rounds, i, n, latest);
    }
  }

  /** The ledger the node named last is not below `t`. */
  ghost predicate NamedLast(rounds: seq<Round>, i: nat, n: nat, t: int) {
    exists b: nat, latest :: LastNamed(rounds, i, n, b, latest) && t <= latest
  }

  /** The target is the least of the ledgers the nodes named last. */
  lemma LeastSeqIs(c: Config, rounds: seq<Round>, n: nat, t: int)
    requires n <= |rounds| && IsLeastSeq(c, rounds, n, t)
    ensures forall i: nat :: i < c.nodes ==> NamedLast(rounds, i, n, t)
    ensures exists i: nat, b: nat :: i < c.nodes && LastNamed(rounds, i, n, b, t)
  {
    hide LastNamed;
    forall i: nat | i < c.nodes
      ensures NamedLast(rounds, i, n, t)
    {
      LastSeqIs(rounds, i, n, LastSeq(rounds, i, n).value);
    }
    var i: nat :| i < c.nodes && LastSeq(rounds, i, n) == Some(t);
    LastSeqIs(rounds, i, n, t);
  }

  /** Node `i` named a ledger not below `t`, and spelled the hash of ledger `t` as `text`. */
  ghost predicate Vouches(round: Round, i: nat, t: int, text: string) {
    && i < |round.infos| && i < |round.ledgers| && Spells(round.ledgers[i], text)
    && exists ledger, n :: Reports(round.infos[i], ledger) && Complete(ledger, n) && t <= n
  }

  lemma ConfirmsIs(round: Round, i: nat, t: int, h: string)
    ensures Confirms(round, i, t, h) <==> exists text :: Vouches(round, i, t, text) && Upper(text) == h
  {
    hide Spells, Reports, Complete;
    if Confirms(round, i, t, h) {
      var text :| Spells(round.ledgers[i], text);
      var n := round.SeqOf(i).value;
      assert exists ledger :: Reports(round.infos[i], ledger) && Complete(ledger, n);
      assert Vouches(round, i, t, text);
    }
    if text :| Vouches(round, i, t, text) && Upper(text) == h {
      var ledger, n :| Reports(round.infos[i], ledger) && Complete(ledger, n) && t <= n;
      assert round.SeqOf(i) == Some(n);
    }
  }

  ghost predicate Vouched(round: Round, i: nat, t: int) {
    exists text :: Vouches(round, i, t, text)
  }

  ghost predicate SameHash(round: Round, i: nat, j: nat, t: int) {
    forall s, text :: Vouches(round, i, t, s) && Vouches(round, j, t, text) ==> EqualFold(s, text)
  }

  /** The nodes agree on a ledger exactly when each vouches for it and no two of their hashes differ
      but in the case of letters. */
  lemma AgreementIsUpToCase(c: Config, round: Round, t: int)
    requires 0 < c.nodes
    ensures (exists h :: Agreed(c, round, t, h))
            <==> && (forall i: nat :: i < c.nodes ==> Vouched(round, i, t))
                 && (forall i: nat, j: nat :: i < c.nodes && j < c.nodes ==> SameHash(round, i, j, t))
  {
    hide Confirms, Vouches, EqualFold;
    if h :| Agreed(c, round, t, h) {
      forall i: nat | i < c.nodes
        ensures Vouched(round, i, t)
        ensures forall text :: Vouches(round, i, t, text) ==> Upper(text) == h
      {
        assert Confirms(round, i, t, h);
        ConfirmsIs(round, i, t, h);
        OneSpelling(round, i, t);
      }
      forall i: nat, j: nat, s, text | i < c.nodes && j < c.nodes && Vouches(round, i, t, s) && Vouches(round, j, t, text)
        ensures EqualFold(s, text)
      {
        assert Vouched(round, i, t) && Vouched(round, j, t);
        UpperFolds(s, text);
      }
    }
    if && (forall i: nat :: i < c.nodes ==> Vouched(round, i, t))
       && (forall i: nat, j: nat :: i < c.nodes && j < c.nodes ==> SameHash(round, i, j, t)) {
      assert Vouched(round, 0, t);
      var s :| Vouches(round, 0, t, s);
      forall i: nat | i < c.nodes
        ensures Confirms(round, i, t, Upper(s))
      {
        assert Vouched(round, i, t) && SameHash(round, 0, i, t);
        var text :| Vouches(round, i, t, text);
        UpperFolds(s, text);
        ConfirmsIs(round, i, t, Upper(s));
      }
      assert Agreed(c, round, t, Upper(s));
    }
  }

  lemma OneSpelling(round: Round, i: nat, t: int)
    ensures forall r, s :: Vouches(round, i, t, r) && Vouches(round, i, t, s) ==> r == s
  {
  }

  // ---------------------------------------------------------------------------------------------
  // The loop
  // ---------------------------------------------------------------------------------------------

  ghost predicate Tracks(c: Config, rounds: seq<Round>, n: nat, states: seq<NodeState>)
    requires n <= |rounds|
  {
    && |states| == c.nodes
    && forall i: nat :: i < c.nodes ==> TracksNode(rounds, n, states, i)
  }

  ghost predicate TracksNode(rounds: seq<Round>, n: nat, states: seq<NodeState>, i: nat)
    requires n <= |rounds| && i < |states|
  {
    states[i].baseline == FirstSeq(rounds, i, n) && states[i].sequence == LastSeq(rounds, i, n)
  }

  ghost predicate TargetIs(c: Config, rounds: seq<Round>, n: nat, target: Option<int>)
    requires n <= |rounds|
  {
    if target.Some? then IsTarget(c, rounds, n, target.value)
    else forall l: nat :: l <= n ==> !AllPast(c, rounds, l)
  }

  method PollInfos(states: seq<NodeState>, infos: seq<Reply>) returns (polled: seq<NodeState>)
    requires |infos| == |states|
    ensures |polled| == |states|
    ensures forall i :: 0 <= i < |states| ==> polled[i] == states[i].Polled(infos[i])
  {
    polled := states;
    for i := 0 to |states|
      invariant |polled| == |states|
      invariant forall j :: i <= j < |states| ==> polled[j] == states[j]
      invariant forall j :: 0 <= j < i ==> polled[j] == states[j].Polled(infos[j])
    {
      var state := polled[i].(error := false, hash := None);
      var n := ValidatedSeq(infos[i]);
      if n.Some? {
        state := state.(sequence := n);
        if state.baseline.None? {
          state := state.(baseline := n);
        }
      } else {
        state := state.(error := true);
      }
      polled := polled[i := state];
    }
  }

  /** The least sequence, if every node is past its baseline. */
  method Select(states: seq<NodeState>) returns (target: Option<int>)
    requires states != []
    ensures target.Some? <==> forall i :: 0 <= i < |states| ==> states[i].Advanced()
    ensures target.Some? ==> forall i :: 0 <= i < |states| ==> target.value <= states[i].sequence.value
    ensures target.Some? ==> exists i :: 0 <= i < |states| && states[i].sequence == target
  {
    for i := 0 to |states|
      invariant forall j :: 0 <= j < i ==> states[j].Advanced()
    {
      if !states[i].Advanced() {
        return None;
      }
    }
    var least := states[0].sequence.value;
    for i := 1 to |states|
      invariant forall j :: 0 <= j < i ==> least <= states[j].sequence.value
      invariant exists j :: 0 <= j < i && states[j].sequence == Some(least)
    {
      if states[i].sequence.value < least {
        least := states[i].sequence.value;
      }
    }
    target := Some(least);
  }

  /** Whether this round the node is asked for the target, and answers. */
  ghost predicate Answers(state: NodeState, t: int, reply: Reply)
    requires state.sequence.Some?
  {
    !state.error && t <= state.sequence.value && LedgerHash(reply).Some?
  }

  method QueryLedgers(states: seq<NodeState>, t: int, ledgers: seq<Reply>) returns (asked: seq<NodeState>, hashes: map<int, string>)
    requires |ledgers| == |states| && forall i :: 0 <= i < |states| ==> states[i].sequence.Some?
    ensures |asked| == |states|
    ensures forall i :: 0 <= i < |states| ==>
              asked[i].baseline == states[i].baseline && asked[i].sequence == states[i].sequence
    ensures forall i :: i in hashes <==> 0 <= i < |states| && Answers(states[i], t, ledgers[i])
    ensures forall i :: i in hashes ==> Some(hashes[i]) == LedgerHash(ledgers[i]) == asked[i].hash
  {
    asked, hashes := states, map[];
    for i := 0 to |states|
      invariant |asked| == |states|
      invariant forall j :: i <= j < |states| ==> asked[j] == states[j]
      invariant forall j :: 0 <= j < |states| ==>
                  asked[j].baseline == states[j].baseline && asked[j].sequence == states[j].sequence
      invariant forall j :: j in hashes <==> 0 <= j < i && Answers(states[j], t, ledgers[j])
      invariant forall j :: j in hashes ==> Some(hashes[j]) == LedgerHash(ledgers[j]) == asked[j].hash
    {
      var state := asked[i];
      if state.error || state.sequence.value < t {
        continue;
      }
      var h := LedgerHash(ledgers[i]);
      if h.Some? {
        hashes := hashes[i := h.value];
        asked := asked[i := state.(hash := h)];
      } else {
        asked := asked[i := state.(error := true)];
      }
    }
  }

  ghost predicate AllAre(n: nat, hashes: map<int, string>, h: string) {
    forall i :: 0 <= i < n ==> i in hashes && hashes[i] == h
  }

  /** The hash all nodes gave, if all gave one and it is the same. */
  method Agreement(n: nat, hashes: map<int, string>) returns (agreed: Option<string>)
    requires 0 < n && forall i :: i in hashes ==> 0 <= i < n
    ensures agreed.Some? ==> AllAre(n, hashes, agreed.value)
    ensures agreed.None? ==> forall h :: !AllAre(n, hashes, h)
  {
    KeysBelow(hashes.Keys, n);
    if |hashes| != n {
      var i :| 0 <= i < n && i !in hashes;
      return None;
    }
    var values := hashes.Values;
    assert hashes[0] in values;
    if |values| == 1 {
      var h :| h in values;
      OneValue(values, h);
      forall i | 0 <= i < n
        ensures hashes[i] == h
      {
        assert hashes[i] in values;
      }
      return Some(h);
    }
    forall h
      ensures !AllAre(n, hashes, h)
    {
      if AllAre(n, hashes, h) {
        OnlyValue(n, hashes, h);
        assert false;
      }
    }
    agreed := None;
  }

  lemma OnlyValue(n: nat, hashes: map<int, string>, h: string)
    requires 0 < n && AllAre(n, hashes, h) && forall i :: i in hashes ==> 0 <= i < n
    ensures |hashes.Values| == 1
  {
    assert hashes[0] in hashes.Values;
    assert forall i :: i in hashes ==> hashes[i] == h;
    assert forall g :: g in hashes.Values ==> g == h;
    assert hashes.Values == {h};
  }

  lemma OneValue(values: set<string>, h: string)
    requires |values| == 1 && h in values
    ensures values == {h}
  {
    assert |values - {h}| == 0;
  }

  lemma NoKeys(keys: set<int>)
    requires forall i :: i !in keys
    ensures keys == {}
  {
    if keys != {} {
      SomeMember(keys);
      assert false;
    }
  }

  lemma {:induction false} KeysBelow(keys: set<int>, n: nat)
    requires forall i :: i in keys ==> 0 <= i < n
    ensures |keys| <= n
    ensures |keys| == n <==> forall i :: 0 <= i < n ==> i in keys
  {
    if n == 0 {
      NoKeys(keys);
    } else {
      KeysBelow(keys - {n - 1}, n - 1);
      if n - 1 in keys {
        assert |keys - {n - 1}| == |keys| - 1;
      } else {
        assert keys - {n - 1} == keys;
      }
    }
  }

  /** The states after the polls of round `k`. */
  ghost predicate PolledIn(c: Config, rounds: seq<Round>, k: nat, states: seq<NodeState>)
    requires k < |rounds|
  {
    && Tracks(c, rounds, k + 1, states)
    && forall i: nat :: i < c.nodes ==> FreshUnlessError(rounds[k], states, i)
  }

  ghost predicate FreshUnlessError(round: Round, states: seq<NodeState>, i: nat)
    requires i < |states|
  {
    (states[i].error <==> round.SeqOf(i).None?) && (round.SeqOf(i).Some? ==> states[i].sequence == round.SeqOf(i))
  }

  lemma PolledTracks(c: Config, rounds: seq<Round>, k: nat, n: nat, before: seq<NodeState>, states: seq<NodeState>)
    requires c.Fits(rounds) && n == k + 1 <= |rounds| && Tracks(c, rounds, k, before) && |states| == c.nodes
    requires forall i :: 0 <= i < c.nodes ==> states[i] == before[i].Polled(rounds[k].infos[i])
    ensures PolledIn(c, rounds, k, states)
  {
    forall i: nat | i < c.nodes
      ensures TracksNode(rounds, n, states, i)
      ensures FreshUnlessError(rounds[k], states, i)
    {
      assert TracksNode(rounds, k, before, i);
      FirstBeforeLast(rounds, i, k);
    }
    assert Tracks(c, rounds, n, states);
  }

  lemma SameTracks(c: Config, rounds: seq<Round>, n: nat, before: seq<NodeState>, states: seq<NodeState>)
    requires n <= |rounds| && Tracks(c, rounds, n, before) && |states| == c.nodes
    requires forall i :: 0 <= i < c.nodes ==>
               states[i].baseline == before[i].baseline && states[i].sequence == before[i].sequence
    ensures Tracks(c, rounds, n, states)
  {
    forall i: nat | i < c.nodes
      ensures TracksNode(rounds, n, states, i)
    {
      assert TracksNode(rounds, n, before, i);
    }
  }

  lemma {:induction false} FirstBeforeLast(rounds: seq<Round>, i: nat, n: nat)
    requires n <= |rounds|
    ensures FirstSeq(rounds, i, n).Some? <==> LastSeq(rounds, i, n).Some?
  {
    if 0 < n {
      FirstBeforeLast(rounds, i, n - 1);
    }
  }

  lemma AdvancedIsPast(c: Config, rounds: seq<Round>, n: nat, states: seq<NodeState>)
    requires c.Fits(rounds) && n <= |rounds| && Tracks(c, rounds, n, states)
    ensures AllPast(c, rounds, n) <==> forall i :: 0 <= i < |states| ==> states[i].Advanced()
  {
    forall i: nat | i < c.nodes
      ensures PastBaseline(rounds, i, n) <==> states[i].Advanced()
    {
      assert TracksNode(rounds, n, states, i);
    }
  }

  lemma TargetStays(c: Config, rounds: seq<Round>, k: nat, target: Option<int>)
    requires c.Fits(rounds) && k < |rounds| && TargetIs(c, rounds, k, target)
    ensures target.Some? || !AllPast(c, rounds, k + 1) ==> TargetIs(c, rounds, k + 1, target)
  {
    if target.Some? {
      var m: nat :| SelectedAt(c, rounds, k, target.value, m);
      assert SelectedAt(c, rounds, k + 1, target.value, m);
    }
  }

  lemma TargetChosen(c: Config, rounds: seq<Round>, k: nat, n: nat, states: seq<NodeState>, t: int)
    requires n == k + 1 <= |rounds| && Tracks(c, rounds, n, states)
    requires TargetIs(c, rounds, k, None) && AllPast(c, rounds, n)
    requires forall i :: 0 <= i < |states| ==> states[i].sequence.Some? && t <= states[i].sequence.value
    requires exists i :: 0 <= i < |states| && states[i].sequence == Some(t)
    ensures TargetIs(c, rounds, n, Some(t))
  {
    forall i: nat | i < c.nodes
      ensures LastSeq(rounds, i, n) == states[i].sequence
    {
      assert TracksNode(rounds, n, states, i);
    }
    assert IsLeastSeq(c, rounds, n, t) by {
      var i :| 0 <= i < |states| && states[i].sequence == Some(t);
      assert LastSeq(rounds, i, n) == Some(t);
    }
    assert SelectedAt(c, rounds, n, t, n);
  }

  /** Once a target is known every node has a sequence. */
  lemma TargetHasSeqs(c: Config, rounds: seq<Round>, n: nat, t: int, states: seq<NodeState>)
    requires c.Fits(rounds) && n <= |rounds| && IsTarget(c, rounds, n, t) && Tracks(c, rounds, n, states)
    ensures forall i :: 0 <= i < |states| ==> states[i].sequence.Some?
  {
    var m: nat :| SelectedAt(c, rounds, n, t, m);
    forall i: nat | i < c.nodes
      ensures states[i].sequence.Some?
    {
      assert PastBaseline(rounds, i, m);
      SeqStays(rounds, i, m, n);
      assert TracksNode(rounds, n, states, i);
    }
  }

  lemma {:induction false} SeqStays(rounds: seq<Round>, i: nat, m: nat, n: nat)
    requires m <= n <= |rounds|
    requires LastSeq(rounds, i, m).Some?
    ensures LastSeq(rounds, i, n).Some?
  {
    if m < n {
      SeqStays(rounds, i, m, n - 1);
    }
  }

  /** A target, once selected, is the only one there ever is. */
  lemma TargetFixed(c: Config, rounds: seq<Round>, m: nat, n: nat, t: int, u: int)
    requires c.Fits(rounds) && m <= n <= |rounds| && 0 < c.nodes && IsTarget(c, rounds, m, t)
    ensures IsTarget(c, rounds, n, u) <==> t == u
  {
    var a: nat :| SelectedAt(c, rounds, m, t, a);
    assert SelectedAt(c, rounds, n, t, a);
    if IsTarget(c, rounds, n, u) {
      var b: nat :| SelectedAt(c, rounds, n, u, b);
      assert a == b;
    }
  }

  lemma QueriedAgrees(c: Config, round: Round, states: seq<NodeState>, t: int, hashes: map<int, string>, h: string)
    requires c.RoundFits(round) && |states| == c.nodes
    requires forall i: nat :: i < c.nodes ==> FreshUnlessError(round, states, i)
    requires forall i :: 0 <= i < |states| ==> states[i].sequence.Some?
    requires forall i :: i in hashes <==> 0 <= i < |states| && Answers(states[i], t, round.ledgers[i])
    requires forall i :: i in hashes ==> Some(hashes[i]) == LedgerHash(round.ledgers[i])
    ensures Agreed(c, round, t, h) <==> AllAre(c.nodes, hashes, h)
  {
    forall i: nat | i < c.nodes
      ensures Confirms(round, i, t, h) <==> i in hashes && hashes[i] == h
    {
      assert FreshUnlessError(round, states, i);
    }
  }

  lemma NotSelected(c: Config, rounds: seq<Round>, n: nat, t: int)
    requires n <= |rounds| && TargetIs(c, rounds, n, None)
    ensures !IsTarget(c, rounds, n, t)
  {
  }

  lemma NoTargetNoSuccess(c: Config, rounds: seq<Round>, k: nat)
    requires c.Fits(rounds) && k < |rounds| && TargetIs(c, rounds, k + 1, None)
    ensures Fruitless(c, rounds, k)
  {
    forall t, h
      ensures !Succeeds(c, rounds, k, t, h)
    {
      NotSelected(c, rounds, k + 1, t);
    }
  }

  lemma NoAgreementNoSuccess(c: Config, rounds: seq<Round>, k: nat, t: int)
    requires c.Fits(rounds) && k < |rounds| && 0 < c.nodes && IsTarget(c, rounds, k + 1, t)
    requires forall h :: !Agreed(c, rounds[k], t, h)
    ensures Fruitless(c, rounds, k)
  {
    forall u, h
      ensures !Succeeds(c, rounds, k, u, h)
    {
      TargetFixed(c, rounds, k + 1, k + 1, t, u);
    }
  }

  method PollStates(c: Config, rounds: seq<Round>, k: nat, states: seq<NodeState>) returns (polled: seq<NodeState>)
    requires c.Fits(rounds) && k < |rounds| && Tracks(c, rounds, k, states)
    ensures PolledIn(c, rounds, k, polled) && Tracks(c, rounds, k + 1, polled)
  {
    polled := PollInfos(states, rounds[k].infos);
    PolledTracks(c, rounds, k, k + 1, states, polled);
  }

  method SettleTarget(c: Config, ghost rounds: seq<Round>, ghost k: nat, target: Option<int>, polled: seq<NodeState>)
    returns (settled: Option<int>)
    requires c.Fits(rounds) && k < |rounds| && 0 < c.nodes
    requires TargetIs(c, rounds, k, target) && Tracks(c, rounds, k + 1, polled)
    ensures TargetIs(c, rounds, k + 1, settled) && (target.Some? ==> settled == target)
  {
    hide IsTarget;
    TargetStays(c, rounds, k, target);
    if target.Some? {
      return target;
    }
    settled := Select(polled);
    AdvancedIsPast(c, rounds, k + 1, polled);
    if settled.Some? {
      TargetChosen(c, rounds, k, k + 1, polled, settled.value);
    }
  }

  /** What one turn of the loop decides, once the target is settled. */
  method TryTarget(c: Config, ghost rounds: seq<Round>, ghost k: nat, round: Round, t: int, polled: seq<NodeState>)
    returns (states: seq<NodeState>, agreed: Option<string>)
    requires c.Fits(rounds) && k < |rounds| && round == rounds[k] && 0 < c.nodes
    requires PolledIn(c, rounds, k, polled) && TargetIs(c, rounds, k + 1, Some(t))
    ensures |states| == c.nodes && Tracks(c, rounds, k + 1, states)
    ensures if agreed.Some? then Succeeds(c, rounds, k, t, agreed.value) else Fruitless(c, rounds, k)
    ensures agreed.Some? ==> forall i :: 0 <= i < c.nodes ==>
              states[i].hash == agreed && states[i].sequence.Some? && states[i].sequence == ValidatedSeq(round.infos[i])
  {
    TargetHasSeqs(c, rounds, k + 1, t, polled);
    var hashes;
    states, hashes := QueryLedgers(polled, t, round.ledgers);
    SameTracks(c, rounds, k + 1, polled, states);
    agreed := Agreement(|states|, hashes);
    forall h
      ensures Agreed(c, round, t, h) <==> AllAre(c.nodes, hashes, h)
    {
      QueriedAgrees(c, round, polled, t, hashes, h);
    }
    if agreed.None? {
      NoAgreementNoSuccess(c, rounds, k, t);
    } else {
      assert Agreed(c, round, t, agreed.value);
      forall i: nat | i < c.nodes
        ensures states[i].hash == agreed && states[i].sequence.Some? && states[i].sequence == ValidatedSeq(round.infos[i])
      {
        assert Confirms(round, i, t, agreed.value) && FreshUnlessError(round, polled, i);
      }
    }
  }

  /** The poll interval, but not past the deadline. */
  ghost predicate SleepsFor(sleep: real, poll: real, remaining: real) {
    && (remaining <= 0.0 ==> sleep == 0.0)
    && (0.0 < remaining ==> sleep <= poll && sleep <= remaining && (sleep == poll || sleep == remaining))
  }

  /** Success means that in one round every node reported the target and one hash for it; a timeout
      that no round before did; and there is no third way to end. */
  method Wait(c: Config, rounds: seq<Round>) returns (outcome: Outcome, slept: seq<real>)
    requires c.Fits(rounds)
    ensures outcome.Rejected? <==> c.nodes == 0 || c.timeout <= 0.0 || c.poll < 0.0
    ensures outcome.Ready? ==>
              && outcome.round < |rounds| && Undecided(c, rounds, outcome.round)
              && rounds[outcome.round].now < c.start + c.timeout
              && Succeeds(c, rounds, outcome.round, outcome.ledger, outcome.hash)
              && |outcome.nodes| == c.nodes
              && forall i :: 0 <= i < c.nodes ==>
                   && outcome.nodes[i].hash == outcome.hash
                   && ValidatedSeq(rounds[outcome.round].infos[i]) == Some(outcome.nodes[i].sequence)
    ensures outcome.TimedOut? ==>
              && outcome.round < |rounds| && Undecided(c, rounds, outcome.round)
              && c.start + c.timeout <= rounds[outcome.round].now
    ensures outcome.StillWaiting? ==> Undecided(c, rounds, |rounds|)
    ensures |slept| == match outcome
                       case Rejected => 0
                       case Ready(round, _, _, _) => round
                       case TimedOut(round) => round
                       case StillWaiting => |rounds|
    ensures forall j :: 0 <= j < |slept| ==> SleepsFor(slept[j], c.poll, c.start + c.timeout - rounds[j].later)
  {
    slept := [];
    if c.nodes == 0 || c.timeout <= 0.0 || c.poll < 0.0 {
      return Rejected, slept;
    }
    var states: seq<NodeState> := seq(c.nodes, _ => NodeState(None, None, false, None));
    var target: Option<int> := None;
    assert !PastBaseline(rounds, 0, 0);
    for k := 0 to |rounds|
      invariant Tracks(c, rounds, k, states) && TargetIs(c, rounds, k, target)
      invariant Undecided(c, rounds, k)
      invariant |slept| == k
      invariant forall j :: 0 <= j < k ==> SleepsFor(slept[j], c.poll, c.start + c.timeout - rounds[j].later)
    {
      hide Tracks, TargetIs, PolledIn, IsTarget, AllPast, Succeeds, Fruitless;
      var round := rounds[k];
      if c.start + c.timeout <= round.now {
        return TimedOut(k), slept;
      }
      var polled := PollStates(c, rounds, k, states);
      target := SettleTarget(c, rounds, k, target, polled);
      if target.Some? {
        var agreed;
        states, agreed := TryTarget(c, rounds, k, round, target.value, polled);
        if agreed.Some? {
          var nodes := seq(c.nodes, i requires 0 <= i < c.nodes => Report(states[i].sequence.value, states[i].hash.value));
          return Ready(k, target.value, agreed.value, nodes), slept;
        }
      } else {
        states := polled;
        NoTargetNoSuccess(c, rounds, k);
      }
      slept := slept + [c.Pause(round.later)];
    }
    outcome := StillWaiting;
  }

  // ---------------------------------------------------------------------------------------------
  // Termination
  // ---------------------------------------------------------------------------------------------

  /** The clock never goes back, and a sleep advances it by at least what was asked. */
  ghost predicate ClockRuns(c: Config, rounds: seq<Round>) {
    && (rounds != [] ==> c.start <= rounds[0].now)
    && (forall j :: 0 <= j < |rounds| ==> rounds[j].now <= rounds[j].later)
    && (forall j :: 0 <= j < |rounds| - 1 ==> rounds[j].later + c.Pause(rounds[j].later) <= rounds[j + 1].now)
  }

  lemma {:induction false} RoundsTakeTime(c: Config, rounds: seq<Round>, k: nat)
    requires ClockRuns(c, rounds) && k < |rounds| && forall j :: 0 <= j <= k ==> rounds[j].now < c.start + c.timeout
    ensures c.start + k as real * c.poll <= rounds[k].now
  {
    hide ClockRuns;
    ClockStarts(c, rounds);
    if 0 < k {
      RoundsTakeTime(c, rounds, k - 1);
      SleptWhole(c, rounds, k - 1);
      OneMore(c.start, (k - 1) as real, c.poll, rounds[k - 1].now, rounds[k].now);
    }
  }

  lemma ClockStarts(c: Config, rounds: seq<Round>)
    requires ClockRuns(c, rounds) && rounds != []
    ensures c.start <= rounds[0].now
  {
  }

  /** A round that is followed by another before the deadline sleeps the whole interval. */
  lemma SleptWhole(c: Config, rounds: seq<Round>, j: nat)
    requires ClockRuns(c, rounds) && j < |rounds| - 1 && rounds[j + 1].now < c.start + c.timeout
    ensures rounds[j].now + c.poll <= rounds[j + 1].now
  {
    assert rounds[j].later + c.Pause(rounds[j].later) <= rounds[j + 1].now;
  }

  lemma OneMore(start: real, x: real, poll: real, now: real, next: real)
    requires start + x * poll <= now && now + poll <= next
    ensures start + (x + 1.0) * poll <= next
  {
    assert (x + 1.0) * poll == x * poll + poll;
  }

  /** If the clock runs, the wait is decided within timeout / poll + 1 rounds. */
  lemma WaitIsBounded(c: Config, rounds: seq<Round>, n: nat)
    requires c.Fits(rounds) && ClockRuns(c, rounds) && 0.0 < c.poll && n <= |rounds| && Undecided(c, rounds, n)
    ensures 0 < n ==> (n - 1) as real * c.poll < c.timeout
  {
    if 0 < n {
      RoundsTakeTime(c, rounds, n - 1);
    }
  }

  /** A wait succeeds in one way only. */
  lemma SuccessIsUnique(c: Config, rounds: seq<Round>, k: nat, t: int, h: string, u: int, g: string)
    requires c.Fits(rounds) && k < |rounds| && 0 < c.nodes
    requires Succeeds(c, rounds, k, t, h) && Succeeds(c, rounds, k, u, g)
    ensures t == u && h == g
  {
    TargetFixed(c, rounds, k + 1, k + 1, t, u);
    assert Confirms(rounds[k], 0, t, h) && Confirms(rounds[k], 0, u, g);
  }
}
