/** The client-side sequence manager of the concurrent soak.

    `Manager` is the object: a cached `next` sequence per account, a `known` flag and one mutex
    per account.  `State`/`Next` is the protocol any number of workers run over it, one atomic
    access at a time, against a ledger that accepts an account's current sequence and nothing
    else, and that other traffic may push ahead at any moment. */
module SequenceManager {
  import opened Wrappers

  type Account = string
  type Worker = nat

  const MODULUS: nat := 0x1_0000_0000

  /** Go's conversion to uint32. */
  function Uint32(n: int): (r: nat)
    ensures r < MODULUS
    ensures 0 <= n < MODULUS ==> r == n
    ensures 0 <= n ==> r <= n
    ensures (n - r) % MODULUS == 0
  {
    n % MODULUS
  }

  /** The ledger's own rule: a transaction that is applied, queued or claimed takes its sequence. */
  ghost predicate TakesSequence(code: string) {
    code == "tesSUCCESS" || code == "terQUEUED" || exists rest :: code == "tec" + rest
  }

  /** Results that use up the account sequence. */
  predicate ConsumesSequence(engineResult: string): (b: bool)
    ensures b <==> TakesSequence(engineResult)
  {
    assert "tec" <= engineResult ==> engineResult == "tec" + engineResult[3..];
    engineResult == "tesSUCCESS" || engineResult == "terQUEUED" || "tec" <= engineResult
  }

  /** Results that say the cached sequence and the ledger disagree. */
  predicate ReportsDrift(engineResult: string) {
    engineResult == "tefPAST_SEQ" || engineResult == "terPRE_SEQ"
  }

  datatype Reply = RpcError | Engine(result: string)

  // ---------------------------------------------------------------------------------------------
  // The cache and its operations
  // ---------------------------------------------------------------------------------------------

  datatype Cache = Cache(next: map<Account, nat>, known: map<Account, bool>) {
    predicate Knows(a: Account) {
      a in known && known[a] && a in next
    }

    function Store(a: Account, sequence: nat): (c: Cache)
      ensures c.Knows(a) && c.next[a] == sequence
      ensures forall b :: b != a ==> (c.Knows(b) <==> Knows(b)) && (Knows(b) ==> c.next[b] == next[b])
    {
      Cache(next[a := sequence], known[a := true])
    }

    function Forget(a: Account): (c: Cache)
      ensures !c.Knows(a)
      ensures forall b :: b != a ==> (c.Knows(b) <==> Knows(b)) && (Knows(b) ==> c.next[b] == next[b])
    {
      Cache(next, known[a := false])
    }

    /** What one submission leaves behind: advance, resync or hold. */
    function Settle(a: Account, sequence: nat, reply: Reply): (c: Cache)
      ensures reply.RpcError? || (!ConsumesSequence(reply.result) && ReportsDrift(reply.result)) ==> !c.Knows(a)
      ensures reply.Engine? && ConsumesSequence(reply.result) ==> c.Knows(a) && c.next[a] == Uint32(sequence + 1)
      ensures reply.Engine? && !ConsumesSequence(reply.result) && !ReportsDrift(reply.result) ==> c == this
      ensures forall b :: b != a ==> (c.Knows(b) <==> Knows(b)) && (Knows(b) ==> c.next[b] == next[b])
    {
      match reply
      case RpcError => Forget(a)
      case Engine(r) =>
        if ConsumesSequence(r) then Store(a, Uint32(sequence + 1))
        else if ReportsDrift(r) then Forget(a)
        else this
    }
  }

  class Mutex {
    constructor () {}
  }

  class Manager {
    var locks: map<Account, Mutex>
    var next: map<Account, nat>
    var known: map<Account, bool>

    /** Distinct accounts never share a mutex, and a known account has a cached sequence. */
    ghost predicate Valid()
      reads this
    {
      && (forall a, b :: a in locks && b in locks && locks[a] == locks[b] ==> a == b)
      && (forall a :: a in known && known[a] ==> a in next)
    }

    ghost function View(): Cache
      reads this
    {
      Cache(next, known)
    }

    constructor ()
      ensures Valid() && View() == Cache(map[], map[]) && locks == map[]
    {
      locks, next, known := map[], map[], map[];
    }

    method LockFor(account: Account) returns (l: Mutex)
      requires Valid()
      modifies this`locks
      ensures Valid()
      ensures account in locks && l == locks[account]
      ensures account in old(locks) ==> locks == old(locks)
      ensures account !in old(locks) ==> fresh(l) && locks == old(locks)[account := l]
    {
      if account in locks {
        l := locks[account];
      } else {
        l := new Mutex();
        locks := locks[account := l];
      }
    }

    /** `info` is what account_info answers, should it be asked. */
    method Peek(account: Account, info: Option<nat>) returns (r: Option<nat>)
      requires Valid()
      modifies this`next, this`known
      ensures Valid()
      ensures old(View()).Knows(account) ==>
                View() == old(View()) && r == Some(old(View()).next[account])
      ensures !old(View()).Knows(account) && info.None? ==> View() == old(View()) && r == None
      ensures !old(View()).Knows(account) && info.Some? ==>
                r == Some(Uint32(info.value)) && View() == old(View()).Store(account, Uint32(info.value))
    {
      if account in known && known[account] {
        return Some(next[account]);
      }
      if info.None? {
        return None;
      }
      SetNext(account, Uint32(info.value));
      r := Some(Uint32(info.value));
    }

    method SetNext(account: Account, sequence: nat)
      requires Valid()
      modifies this`next, this`known
      ensures Valid() && View() == old(View()).Store(account, sequence)
    {
      next := next[account := sequence];
      known := known[account := true];
    }

    method Invalidate(account: Account)
      requires Valid()
      modifies this`known
      ensures Valid() && View() == old(View()).Forget(account)
    {
      known := known[account := false];
    }

    /** One submission while the account lock is held.  `info`, `signed` and `reply` are what the
        node and the signer answer; `sent` is the sequence stamped on the transaction. */
    method SubmitTx(account: Account, info: Option<nat>, signed: bool, reply: Reply)
      returns (sent: Option<nat>)
      requires Valid()
      modifies this`next, this`known
      ensures Valid()
      ensures sent == if old(View()).Knows(account) then Some(old(View()).next[account])
                      else if info.Some? then Some(Uint32(info.value)) else None
      ensures View() == SubmitEffect(old(View()), account, info, signed, reply)
    {
      sent := Peek(account, info);
      if sent.None? {
        return;
      }
      if !signed {
        Invalidate(account);
        return;
      }
      match reply
      case RpcError => Invalidate(account);
      case Engine(r) =>
        if ConsumesSequence(r) {
          SetNext(account, Uint32(sent.value + 1));
        } else if ReportsDrift(r) {
          Invalidate(account);
        }
    }
  }

  ghost function SubmitEffect(c: Cache, a: Account, info: Option<nat>, signed: bool, reply: Reply): Cache {
    if !c.Knows(a) && info.None? then c
    else
      var c1 := if c.Knows(a) then c else c.Store(a, Uint32(info.value));
      if signed then c1.Settle(a, c1.next[a], reply) else c1.Forget(a)
  }

  /** What a submission leaves of its account, by the codes. Sent as `q` and signed: the next sequence
      is known exactly after tesSUCCESS, terQUEUED and every code that begins with tec; it is forgotten
      after an error and after the two codes of drift; and after any other code `q` is held for the
      next transaction. Nothing is learned of an account that could not be read, and a transaction that
      could not be signed costs the cache what it knew. */
  lemma SubmissionByCode(c: Cache, a: Account, info: Option<nat>, signed: bool, reply: Reply)
    ensures var d := SubmitEffect(c, a, info, signed, reply);
            var q := if c.Knows(a) then Some(c.next[a]) else if info.Some? then Some(Uint32(info.value)) else None;
            && (q.None? ==> d == c)
            && (q.Some? && !signed ==> !d.Knows(a))
            && (q.Some? && signed && reply.RpcError? ==> !d.Knows(a))
            && (q.Some? && signed && reply.Engine? ==>
                  var code := reply.result;
                  var taken := code == "tesSUCCESS" || code == "terQUEUED" || exists rest :: code == "tec" + rest;
                  var drift := code == "tefPAST_SEQ" || code == "terPRE_SEQ";
                  && (d.Knows(a) && d.next[a] == Uint32(q.value + 1) <==> taken)
                  && (!d.Knows(a) <==> drift)
                  && (d.Knows(a) && d.next[a] == q.value <==> !taken && !drift))
            && (forall b :: b != a ==> (d.Knows(b) <==> c.Knows(b)) && (c.Knows(b) ==> d.next[b] == c.next[b]))
  {
    DriftTakesNothing();
    if c.Knows(a) || info.Some? {
      var q := if c.Knows(a) then c.next[a] else Uint32(info.value);
      assert Uint32(q + 1) != q;
    }
  }

  lemma DriftTakesNothing()
    ensures !TakesSequence("tefPAST_SEQ") && !TakesSequence("terPRE_SEQ")
  {
    assert "tefPAST_SEQ"[2] == 'f' && "terPRE_SEQ"[2] == 'r' && "terPRE_SEQ"[3] == 'P';
    assert "tesSUCCESS"[2] == 's' && "terQUEUED"[3] == 'Q' && "tec"[2] == 'c';
    forall rest
      ensures ("tec" + rest)[2] == 'c'
    {
    }
  }

  // ---------------------------------------------------------------------------------------------
  // The protocol
  // ---------------------------------------------------------------------------------------------

  /** What the ledger holds for one account, with the tallies the claims are about:
      `consumed` lists the sequences used up through the manager, `foreign` how far anything else
      moved the sequence, `jumps` how often other traffic moved it, `past` the tefPAST_SEQ replies. */
  datatype Book = Book(start: nat, sequence: nat, consumed: seq<nat>, foreign: nat, jumps: nat, past: nat)

  datatype Phase =
    | Idle
    | Waiting(account: Account, lock: nat)
    | Locked(account: Account)
    | Fetched(account: Account, sequence: nat)
    | Ready(account: Account, sequence: nat)
    | Replied(account: Account, sequence: nat, reply: Reply)
    | Leaving(account: Account)
  {
    predicate Holds(a: Account) {
      !Idle? && !Waiting? && account == a
    }
  }

  datatype State = State(
    locks: map<Account, nat>,
    held: map<nat, Worker>,
    cache: Cache,
    phases: seq<Phase>,
    books: map<Account, Book>)

  datatype Event =
    | AskLock(w: Worker, account: Account, freshLock: nat)
    | Acquire(w: Worker)
    | PeekKnown(w: Worker)
    | FetchInfo(w: Worker)
    | FetchFails(w: Worker)
    | StoreInfo(w: Worker)
    | SignFails(w: Worker)
    | Submit(w: Worker, reply: Reply, landed: bool)
    | SettleReply(w: Worker)
    | Unlock(w: Worker)
    | OtherTraffic(account: Account, amount: nat)

  /** The ledger takes exactly its current sequence.  A landed transaction answers with a consuming
      result or loses its answer; anything else leaves the ledger alone, and the two drift results
      mean what they say. */
  ghost predicate LedgerAnswers(b: Book, sequence: nat, reply: Reply, landed: bool) {
    && (landed ==> sequence == b.sequence && b.sequence + 1 < MODULUS)
    && match reply
       case RpcError => true
       case Engine(r) =>
         && (TakesSequence(r) <==> landed)
         && (r == "tefPAST_SEQ" ==> sequence < b.sequence)
         && (r == "terPRE_SEQ" ==> sequence > b.sequence)
  }

  function Booked(b: Book, sequence: nat, reply: Reply, landed: bool): Book {
    if landed then
      var b1 := b.(sequence := b.sequence + 1);
      if reply.Engine? then b1.(consumed := b.consumed + [sequence]) else b1.(foreign := b.foreign + 1)
    else if reply == Engine("tefPAST_SEQ") then b.(past := b.past + 1)
    else b
  }

  function Go(s: State, w: Worker, p: Phase): State
    requires w < |s.phases|
  {
    s.(phases := s.phases[w := p])
  }

  ghost predicate Next(s: State, e: Event, t: State) {
    if e.OtherTraffic? then
      && e.account in s.books && 0 < e.amount && s.books[e.account].sequence + e.amount < MODULUS
      && var b := s.books[e.account];
         t == s.(books := s.books[e.account := b.(sequence := b.sequence + e.amount, foreign := b.foreign + e.amount,
                                                  jumps := b.jumps + 1)])
    else
      && e.w < |s.phases|
      && var p := s.phases[e.w];
      match e
      case AskLock(w, a, freshLock) =>
        && p == Idle
        && if a in s.locks then t == Go(s, w, Waiting(a, s.locks[a]))
           else
             && freshLock !in s.locks.Values && freshLock !in s.held
             && t == Go(s.(locks := s.locks[a := freshLock]), w, Waiting(a, freshLock))
      case Acquire(w) =>
        && p.Waiting? && p.lock !in s.held
        && t == Go(s.(held := s.held[p.lock := w]), w, Locked(p.account))
      case PeekKnown(w) =>
        && p.Locked? && s.cache.Knows(p.account)
        && t == Go(s, w, Ready(p.account, s.cache.next[p.account]))
      case FetchInfo(w) =>
        && p.Locked? && !s.cache.Knows(p.account) && p.account in s.books
        && t == Go(s, w, Fetched(p.account, Uint32(s.books[p.account].sequence)))
      case FetchFails(w) =>
        && p.Locked? && !s.cache.Knows(p.account)
        && t == Go(s, w, Leaving(p.account))
      case StoreInfo(w) =>
        && p.Fetched?
        && t == Go(s.(cache := s.cache.Store(p.account, p.sequence)), w, Ready(p.account, p.sequence))
      case SignFails(w) =>
        && p.Ready?
        && t == Go(s.(cache := s.cache.Forget(p.account)), w, Leaving(p.account))
      case Submit(w, reply, landed) =>
        && p.Ready? && p.account in s.books
        && LedgerAnswers(s.books[p.account], p.sequence, reply, landed)
        && t == Go(s.(books := s.books[p.account := Booked(s.books[p.account], p.sequence, reply, landed)]),
                   w, Replied(p.account, p.sequence, reply))
      case SettleReply(w) =>
        && p.Replied?
        && t == Go(s.(cache := s.cache.Settle(p.account, p.sequence, p.reply)), w, Leaving(p.account))
      case Unlock(w) =>
        && p.Leaving? && p.account in s.locks
        && t == Go(s.(held := s.held - {s.locks[p.account]}), w, Idle)
  }

  ghost predicate Init(s: State) {
    && s.locks == map[] && s.held == map[] && s.cache == Cache(map[], map[])
    && (forall w :: 0 <= w < |s.phases| ==> s.phases[w] == Idle)
    && (forall a :: a in s.books ==>
          var b := s.books[a];
          b.start == b.sequence < MODULUS && b.consumed == [] && b.foreign == b.jumps == b.past == 0)
  }

  ghost predicate StepAt(run: seq<State>, events: seq<Event>, i: nat)
    requires |run| == |events| + 1 && i < |events|
  {
    Next(run[i], events[i], run[i + 1])
  }

  ghost predicate IsRun(run: seq<State>, events: seq<Event>) {
    && |run| == |events| + 1
    && Init(run[0])
    && forall i :: 0 <= i < |events| ==> StepAt(run, events, i)
  }

  // ---------------------------------------------------------------------------------------------
  // The invariant
  // ---------------------------------------------------------------------------------------------

  ghost predicate LockFree(s: State, a: Account) {
    a in s.locks ==> s.locks[a] !in s.held
  }

  /** One jump of other traffic pays for one tefPAST_SEQ; `behind` says one is still owed.  `slack`
      is what the account was given to start with: nothing at the start of a run, and enough for
      one reply when the count starts at some later state. */
  ghost predicate Paid(b: Book, behind: bool, slack: int) {
    b.past + (if behind then 1 else 0) <= b.jumps + slack
  }

  ghost predicate CacheOk(s: State, a: Account) {
    s.cache.Knows(a) ==> a in s.books && s.cache.next[a] <= s.books[a].sequence
  }

  ghost predicate Behind(s: State, a: Account)
  {
    s.cache.Knows(a) && a in s.books && s.cache.next[a] < s.books[a].sequence
  }

  ghost predicate FreeOk(s: State, a: Account, k: Account -> int) {
    a in s.books && LockFree(s, a) ==> Paid(s.books[a], Behind(s, a), k(a))
  }

  /** The sequences consumed are strictly increasing, lie below the ledger's, and account for every
      step of it that nothing else made. */
  ghost predicate BookOk(b: Book, slack: int) {
    && Paid(b, false, slack)
    && b.sequence < MODULUS
    && b.sequence == b.start + |b.consumed| + b.foreign
    && (forall i :: 0 <= i < |b.consumed| ==> b.start + i <= b.consumed[i] <= b.sequence - (|b.consumed| - i))
    && (forall i, j :: 0 <= i < j < |b.consumed| ==> b.consumed[i] < b.consumed[j])
  }

  ghost predicate PhaseOk(s: State, w: Worker, k: Account -> int)
    requires w < |s.phases|
  {
    var p := s.phases[w];
    && (p.Waiting? ==> p.account in s.locks && s.locks[p.account] == p.lock)
    && (!p.Idle? && !p.Waiting? ==>
          var a := p.account;
          && a in s.locks && s.locks[a] in s.held && s.held[s.locks[a]] == w
          && (p.Locked? || p.Leaving? ==> a in s.books ==> Paid(s.books[a], Behind(s, a), k(a)))
          && (p.Fetched? ==> !s.cache.Knows(a) && a in s.books && p.sequence <= s.books[a].sequence
                             && Paid(s.books[a], p.sequence < s.books[a].sequence, k(a)))
          && (p.Ready? ==> s.cache.Knows(a) && s.cache.next[a] == p.sequence && a in s.books
                           && Paid(s.books[a], p.sequence < s.books[a].sequence, k(a)))
          && (p.Replied? ==> s.cache.Knows(a) && s.cache.next[a] == p.sequence && a in s.books
                             && SettledOk(s.books[a], p.sequence, p.reply, k(a))))
  }

  /** What must hold between the reply and the cache update it leads to. */
  ghost predicate SettledOk(b: Book, sequence: nat, reply: Reply, slack: int) {
    match reply
    case RpcError => Paid(b, false, slack)
    case Engine(r) =>
      if ConsumesSequence(r) then sequence + 1 <= b.sequence && Paid(b, sequence + 1 < b.sequence, slack)
      else if ReportsDrift(r) then Paid(b, false, slack)
      else Paid(b, sequence < b.sequence, slack)
  }

  ghost predicate Inv(s: State, k: Account -> int) {
    && (forall a, b :: a in s.locks && b in s.locks && s.locks[a] == s.locks[b] ==> a == b)
    && (forall w :: 0 <= w < |s.phases| ==> PhaseOk(s, w, k))
    && (forall a :: CacheOk(s, a))
    && (forall a :: FreeOk(s, a, k))
    && (forall a :: a in s.books ==> BookOk(s.books[a], k(a)))
  }

  lemma MutualExclusion(k: Account -> int, s: State, v: Worker, w: Worker, a: Account)
    requires Inv(s, k) && v < |s.phases| && w < |s.phases|
    requires s.phases[v].Holds(a) && s.phases[w].Holds(a)
    ensures v == w
  {
    assert PhaseOk(s, v, k) && PhaseOk(s, w, k);
  }

  lemma InitInv(k: Account -> int, s: State)
    requires Init(s) && forall a :: 0 <= k(a)
    ensures Inv(s, k)
  {
    forall a
      ensures FreeOk(s, a, k)
    {
      assert 0 <= k(a);
    }
  }

  /** A worker's step touches the cache and the book of the account it holds, and no other. */
  lemma StepFrame(s: State, e: Event, t: State, a: Account)
    requires Next(s, e, t) && !e.OtherTraffic? && !s.phases[e.w].Holds(a)
    ensures s.cache.Knows(a) <==> t.cache.Knows(a)
    ensures s.cache.Knows(a) ==> s.cache.next[a] == t.cache.next[a]
    ensures a in s.books <==> a in t.books
    ensures a in s.books ==> s.books[a] == t.books[a]
  {
  }

  lemma OwnPhase(k: Account -> int, s: State, e: Event, t: State)
    requires Inv(s, k) && Next(s, e, t) && !e.OtherTraffic?
    ensures PhaseOk(t, e.w, k)
  {
    assert PhaseOk(s, e.w, k);
    var p := s.phases[e.w];
    if !p.Idle? {
      assert CacheOk(s, p.account) && FreeOk(s, p.account, k);
      if p.account in s.books {
        assert BookOk(s.books[p.account], k(p.account));
      }
    }
  }

  /** What a worker's step leaves of the locks of another. */
  lemma LockFrame(k: Account -> int, s: State, e: Event, t: State, v: Worker)
    requires Next(s, e, t) && !e.OtherTraffic? && PhaseOk(s, e.w, k) && v < |s.phases| && v != e.w
    ensures |t.phases| == |s.phases| && t.phases[v] == s.phases[v]
    ensures forall a :: a in s.locks ==> a in t.locks && t.locks[a] == s.locks[a]
    ensures forall l :: l in s.held && s.held[l] == v ==> l in t.held && t.held[l] == v
  {
    hide Paid, SettledOk, LedgerAnswers, Booked, ConsumesSequence, ReportsDrift, Uint32;
  }

  lemma OtherPhase(k: Account -> int, s: State, e: Event, t: State, v: Worker)
    requires Inv(s, k) && Next(s, e, t) && !e.OtherTraffic? && v < |s.phases| && v != e.w
    ensures v < |t.phases| && PhaseOk(t, v, k)
  {
    assert e.w < |s.phases|;
    hide Next, Paid, SettledOk, BookOk, LedgerAnswers, Booked, ConsumesSequence, ReportsDrift, Uint32;
    assert PhaseOk(s, v, k) && PhaseOk(s, e.w, k);
    LockFrame(k, s, e, t, v);
    var p := s.phases[v];
    if !p.Idle? && !p.Waiting? {
      if s.phases[e.w].Holds(p.account) {
        MutualExclusion(k, s, v, e.w, p.account);
      }
      StepFrame(s, e, t, p.account);
    }
  }

  lemma StepCache(k: Account -> int, s: State, e: Event, t: State, a: Account)
    requires Inv(s, k) && Next(s, e, t) && !e.OtherTraffic?
    ensures CacheOk(t, a) && (a in t.books ==> BookOk(t.books[a], k(a)))
  {
    assert CacheOk(s, a) && PhaseOk(s, e.w, k);
    if a in s.books {
      assert BookOk(s.books[a], k(a));
    }
    if !s.phases[e.w].Holds(a) {
      StepFrame(s, e, t, a);
    }
  }

  lemma StepFree(k: Account -> int, s: State, e: Event, t: State, a: Account)
    requires Inv(s, k) && Next(s, e, t) && !e.OtherTraffic?
    ensures FreeOk(t, a, k)
  {
    assert FreeOk(s, a, k) && PhaseOk(s, e.w, k);
    if !s.phases[e.w].Holds(a) {
      StepFrame(s, e, t, a);
    } else if !e.Unlock? {
      assert !LockFree(t, a);
    }
  }

  lemma TrafficInv(k: Account -> int, s: State, e: Event, t: State)
    requires Inv(s, k) && Next(s, e, t) && e.OtherTraffic?
    ensures Inv(t, k)
  {
    assert BookOk(s.books[e.account], k(e.account));
    forall w | 0 <= w < |t.phases|
      ensures PhaseOk(t, w, k)
    {
      assert PhaseOk(s, w, k);
    }
    forall a
      ensures CacheOk(t, a) && FreeOk(t, a, k)
    {
      assert CacheOk(s, a) && FreeOk(s, a, k);
    }
  }

  lemma StepInv(k: Account -> int, s: State, e: Event, t: State)
    requires Inv(s, k) && Next(s, e, t)
    ensures Inv(t, k)
  {
    if e.OtherTraffic? {
      TrafficInv(k, s, e, t);
    } else {
      forall v | 0 <= v < |t.phases|
        ensures PhaseOk(t, v, k)
      {
        if v == e.w {
          OwnPhase(k, s, e, t);
        } else {
          OtherPhase(k, s, e, t, v);
        }
      }
      forall a
        ensures CacheOk(t, a) && FreeOk(t, a, k) && (a in t.books ==> BookOk(t.books[a], k(a)))
      {
        StepCache(k, s, e, t, a);
        StepFree(k, s, e, t, a);
      }
    }
  }

  // ---------------------------------------------------------------------------------------------
  // Whole runs
  // ---------------------------------------------------------------------------------------------

  lemma {:induction false} RunInv(run: seq<State>, events: seq<Event>, n: nat)
    requires IsRun(run, events) && n <= |events|
    ensures Inv(run[n], a => 0)
  {
    if n == 0 {
      InitInv(a => 0, run[0]);
    } else {
      RunInv(run, events, n - 1);
      assert StepAt(run, events, n - 1);
      StepInv(a => 0, run[n - 1], events[n - 1], run[n]);
    }
  }

  /** In every reachable state a cached sequence is at most the ledger's, whoever holds the lock;
      at most one worker holds an account; and the account's book is in order. */
  lemma CachedSequenceNeverAhead(run: seq<State>, events: seq<Event>, n: nat, a: Account)
    requires IsRun(run, events) && n <= |events|
    ensures run[n].cache.Knows(a) ==>
              a in run[n].books && run[n].cache.next[a] <= run[n].books[a].sequence
    ensures forall v, w :: 0 <= v < w < |run[n].phases| ==>
              !(run[n].phases[v].Holds(a) && run[n].phases[w].Holds(a))
  {
    RunInv(run, events, n);
    assert CacheOk(run[n], a);
    forall v, w | 0 <= v < w < |run[n].phases| && run[n].phases[v].Holds(a) && run[n].phases[w].Holds(a)
      ensures false
    {
      MutualExclusion(x => 0, run[n], v, w, a);
    }
  }

  /** No submission ever opens a gap: what is sent is at most what the ledger expects, so the
      ledger never answers terPRE_SEQ, and it consumes only its own current sequence. */
  lemma SubmissionsLeaveNoGap(run: seq<State>, events: seq<Event>, i: nat)
    requires IsRun(run, events) && i < |events| && events[i].Submit?
    ensures events[i].w < |run[i].phases| && run[i].phases[events[i].w].Ready?
    ensures var e := events[i]; var p := run[i].phases[e.w];
            && p.account in run[i].books
            && p.sequence <= run[i].books[p.account].sequence
            && e.reply != Engine("terPRE_SEQ")
            && (e.reply.Engine? && TakesSequence(e.reply.result) ==>
                  p.sequence == run[i].books[p.account].sequence)
  {
    RunInv(run, events, i);
    var w := events[i].w;
    assert StepAt(run, events, i);
    assert PhaseOk(run[i], w, a => 0) && CacheOk(run[i], run[i].phases[w].account);
  }

  ghost predicate SubmitsFor(s: State, e: Event, a: Account) {
    e.Submit? && e.w < |s.phases| && s.phases[e.w].Ready? && s.phases[e.w].account == a
  }

  /** The sequences consumed for `a` by the events from `m` up to `n`, in order. */
  ghost function Consumed(run: seq<State>, events: seq<Event>, a: Account, m: nat, n: nat): seq<nat>
    requires |run| == |events| + 1 && m <= n <= |events|
  {
    if m == n then []
    else
      var e, s := events[n - 1], run[n - 1];
      Consumed(run, events, a, m, n - 1) +
      if SubmitsFor(s, e, a) && e.reply.Engine? && TakesSequence(e.reply.result)
      then [s.phases[e.w].sequence] else []
  }

  /** The tefPAST_SEQ replies `a` received over the same events. */
  ghost function PastReplies(run: seq<State>, events: seq<Event>, a: Account, m: nat, n: nat): nat
    requires |run| == |events| + 1 && m <= n <= |events|
  {
    if m == n then 0
    else
      PastReplies(run, events, a, m, n - 1) +
      if SubmitsFor(run[n - 1], events[n - 1], a) && events[n - 1].reply == Engine("tefPAST_SEQ") then 1 else 0
  }

  /** How often other traffic moved the sequence of `a`. */
  ghost function Jumps(events: seq<Event>, a: Account, m: nat, n: nat): nat
    requires m <= n <= |events|
  {
    if m == n then 0
    else
      Jumps(events, a, m, n - 1) +
      if events[n - 1].OtherTraffic? && events[n - 1].account == a then 1 else 0
  }

  /** Something other than a confirmed submission of the manager moved the sequence of `a`: other
      traffic, or a submission whose answer was lost although it landed. */
  ghost predicate ForeignStep(s: State, e: Event, a: Account) {
    || (e.OtherTraffic? && e.account == a)
    || (SubmitsFor(s, e, a) && e.reply.RpcError? && e.landed)
  }

  lemma BookStep(s: State, e: Event, t: State, a: Account)
    requires Next(s, e, t) && a in s.books
    ensures a in t.books
    ensures var b := s.books[a];
            t.books[a] ==
              if e.OtherTraffic? && e.account == a then
                b.(sequence := b.sequence + e.amount, foreign := b.foreign + e.amount, jumps := b.jumps + 1)
              else if SubmitsFor(s, e, a) then Booked(b, s.phases[e.w].sequence, e.reply, e.landed)
              else b
    ensures SubmitsFor(s, e, a) ==> LedgerAnswers(s.books[a], s.phases[e.w].sequence, e.reply, e.landed)
  {
  }

  /** The books kept in the states are the tallies of the events. */
  lemma {:induction false} BooksTally(run: seq<State>, events: seq<Event>, a: Account, m: nat, n: nat)
    requires IsRun(run, events) && m <= n <= |events| && a in run[m].books
    ensures a in run[n].books
    ensures var b, c := run[m].books[a], run[n].books[a];
            && c.start == b.start
            && c.consumed == b.consumed + Consumed(run, events, a, m, n)
            && c.past == b.past + PastReplies(run, events, a, m, n)
            && c.jumps == b.jumps + Jumps(events, a, m, n)
            && b.foreign <= c.foreign
            && ((forall i :: m <= i < n ==> !ForeignStep(run[i], events[i], a)) ==> c.foreign == b.foreign)
  {
    if m < n {
      BooksTally(run, events, a, m, n - 1);
      var s, e, t := run[n - 1], events[n - 1], run[n];
      assert StepAt(run, events, n - 1);
      BookStep(s, e, t, a);
      assert !ForeignStep(s, e, a) ==> t.books[a].foreign == s.books[a].foreign;
    }
  }

  /** Over any stretch of any run, the sequences an account consumes through the manager are
      strictly increasing; and while nothing else moves the ledger they are contiguous and are
      exactly the steps the ledger made. */
  lemma ConsumedInOrder(run: seq<State>, events: seq<Event>, a: Account, m: nat, n: nat)
    requires IsRun(run, events) && m <= n <= |events| && a in run[m].books
    ensures a in run[n].books
    ensures var c := Consumed(run, events, a, m, n);
            && (forall i, j :: 0 <= i < j < |c| ==> c[i] < c[j])
            && ((forall i :: m <= i < n ==> !ForeignStep(run[i], events[i], a)) ==>
                  && run[n].books[a].sequence == run[m].books[a].sequence + |c|
                  && forall i :: 0 <= i < |c| ==> c[i] == run[m].books[a].sequence + i)
  {
    BooksTally(run, events, a, m, n);
    BookInOrder(run, events, m, a);
    BookInOrder(run, events, n, a);
    var b, d := run[m].books[a], run[n].books[a];
    var c := Consumed(run, events, a, m, n);
    forall i | 0 <= i < |c|
      ensures c[i] == d.consumed[|b.consumed| + i]
    {
    }
    if forall i :: m <= i < n ==> !ForeignStep(run[i], events[i], a) {
      forall i | 0 <= i < |c|
        ensures c[i] == b.sequence + i
      {
        var x := |b.consumed| + i;
        assert d.consumed[x] <= d.sequence - (|d.consumed| - x);
        ConsumedSince(run, events, a, m, n, i);
      }
    }
  }

  lemma BookInOrder(run: seq<State>, events: seq<Event>, n: nat, a: Account)
    requires IsRun(run, events) && n <= |events| && a in run[n].books
    ensures BookOk(run[n].books[a], 0)
  {
    RunInv(run, events, n);
  }

  lemma ConsumedIsCurrent(s: State, e: Event, t: State, a: Account)
    requires Next(s, e, t) && SubmitsFor(s, e, a) && e.reply.Engine? && TakesSequence(e.reply.result)
    ensures a in s.books && s.phases[e.w].sequence == s.books[a].sequence
  {
  }

  /** What is consumed after `m` is at least the ledger's sequence at `m`, one more each time. */
  lemma {:induction false} ConsumedSince(run: seq<State>, events: seq<Event>, a: Account, m: nat, n: nat, i: nat)
    requires IsRun(run, events) && m <= n <= |events| && a in run[m].books
    requires i < |Consumed(run, events, a, m, n)|
    ensures run[m].books[a].sequence + i <= Consumed(run, events, a, m, n)[i]
  {
    if i < |Consumed(run, events, a, m, n - 1)| {
      ConsumedSince(run, events, a, m, n - 1, i);
    } else {
      BooksTally(run, events, a, m, n - 1);
      BookInOrder(run, events, m, a);
      BookInOrder(run, events, n - 1, a);
      assert StepAt(run, events, n - 1);
      ConsumedIsCurrent(run[n - 1], events[n - 1], run[n], a);
    }
  }

  /** A stale sequence costs at most one tefPAST_SEQ before the resync: from the start of a run an
      account receives no more of them than other traffic moved its sequence, and over any later
      stretch at most one more, for a jump that came before it. */
  lemma StaleSequenceCostsOneReply(run: seq<State>, events: seq<Event>, a: Account, m: nat, n: nat)
    requires IsRun(run, events) && m <= n <= |events| && a in run[m].books
    ensures PastReplies(run, events, a, m, n) <= Jumps(events, a, m, n) + (if m == 0 then 0 else 1)
  {
    var k: Account -> int := x => if m == 0 || x !in run[m].books then 0 else 1 + run[m].books[x].past - run[m].books[x].jumps;
    StretchInv(run, events, k, m, n);
    BooksTally(run, events, a, m, n);
    assert BookOk(run[n].books[a], k(a));
  }

  /** Counting afresh from a reachable state. */
  lemma Restart(k: Account -> int, s: State)
    requires Inv(s, a => 0)
    requires forall a :: a in s.books ==> k(a) == 1 + s.books[a].past - s.books[a].jumps
    ensures Inv(s, k)
  {
    forall w | 0 <= w < |s.phases|
      ensures PhaseOk(s, w, k)
    {
      assert PhaseOk(s, w, a => 0);
    }
    forall a
      ensures FreeOk(s, a, k) && (a in s.books ==> BookOk(s.books[a], k(a)))
    {
      assert FreeOk(s, a, x => 0) && (a in s.books ==> BookOk(s.books[a], 0));
    }
  }

  lemma {:induction false} StretchInv(run: seq<State>, events: seq<Event>, k: Account -> int, m: nat, n: nat)
    requires IsRun(run, events) && m <= n <= |events|
    requires forall a :: a in run[m].books ==>
               k(a) == if m == 0 then 0 else 1 + run[m].books[a].past - run[m].books[a].jumps
    requires forall a :: a !in run[m].books ==> k(a) == 0
    ensures Inv(run[n], k)
  {
    if m < n {
      StretchInv(run, events, k, m, n - 1);
      assert StepAt(run, events, n - 1);
      StepInv(k, run[n - 1], events[n - 1], run[n]);
    } else if m == 0 {
      InitInv(k, run[0]);
    } else {
      RunInv(run, events, m);
      Restart(k, run[m]);
    }
  }

  /** Every held mutex is held by a worker that is inside the section it guards. */
  ghost predicate HolderOk(s: State, lock: nat) {
    lock in s.held ==>
      var w := s.held[lock];
      && w < |s.phases|
      && !s.phases[w].Idle? && !s.phases[w].Waiting?
      && s.phases[w].account in s.locks && s.locks[s.phases[w].account] == lock
  }

  lemma HolderStep(s: State, e: Event, t: State, lock: nat)
    requires Inv(s, a => 0) && HolderOk(s, lock) && Next(s, e, t)
    ensures HolderOk(t, lock)
  {
    if !e.OtherTraffic? {
      assert PhaseOk(s, e.w, a => 0);
    }
  }

  lemma {:induction false} RunHolders(run: seq<State>, events: seq<Event>, n: nat, lock: nat)
    requires IsRun(run, events) && n <= |events|
    ensures HolderOk(run[n], lock)
  {
    if 0 < n {
      RunHolders(run, events, n - 1, lock);
      RunInv(run, events, n - 1);
      assert StepAt(run, events, n - 1);
      HolderStep(run[n - 1], events[n - 1], run[n], lock);
    }
  }

  ghost predicate Enabled(s: State, e: Event) {
    exists t :: Next(s, e, t)
  }

  /** No submission waits for ever on the locks: whenever a worker is inside submitTx, it or the
      worker that holds the mutex it waits for can take its next step. */
  lemma LocksNeverDeadlock(run: seq<State>, events: seq<Event>, n: nat, w: Worker)
    requires IsRun(run, events) && n <= |events|
    requires w < |run[n].phases| && run[n].phases[w] != Idle
    ensures exists e :: Enabled(run[n], e) && !e.OtherTraffic? && !e.AskLock? &&
              (e.w == w || (run[n].phases[w].Waiting? && run[n].phases[w].lock in run[n].held
                            && e.w == run[n].held[run[n].phases[w].lock]))
  {
    RunInv(run, events, n);
    if run[n].phases[w].Waiting? {
      RunHolders(run, events, n, run[n].phases[w].lock);
    }
    var e := SomeoneReady(run[n], w);
  }

  lemma SomeoneReady(s: State, w: Worker) returns (e: Event)
    requires Inv(s, a => 0) && w < |s.phases| && s.phases[w] != Idle
    requires s.phases[w].Waiting? ==> HolderOk(s, s.phases[w].lock)
    ensures Enabled(s, e) && !e.OtherTraffic? && !e.AskLock?
    ensures e.w == w || (s.phases[w].Waiting? && s.phases[w].lock in s.held && e.w == s.held[s.phases[w].lock])
    ensures e.w < |s.phases| && s.phases[e.w] != Idle
  {
    var p := s.phases[w];
    if p.Waiting? && p.lock !in s.held {
      e := Acquire(w);
      assert Next(s, e, Go(s.(held := s.held[p.lock := w]), w, Locked(p.account)));
    } else {
      e := InsideReady(s, if p.Waiting? then s.held[p.lock] else w);
    }
  }

  lemma InsideReady(s: State, w: Worker) returns (e: Event)
    requires Inv(s, a => 0) && w < |s.phases| && !s.phases[w].Idle? && !s.phases[w].Waiting?
    ensures Enabled(s, e) && !e.OtherTraffic? && !e.AskLock? && e.w == w
  {
    var p := s.phases[w];
    assert PhaseOk(s, w, a => 0);
    match p
    case Locked(a) =>
      if s.cache.Knows(a) {
        e := PeekKnown(w);
        assert Next(s, e, Go(s, w, Ready(a, s.cache.next[a])));
      } else {
        e := FetchFails(w);
        assert Next(s, e, Go(s, w, Leaving(a)));
      }
    case Fetched(a, q) =>
      e := StoreInfo(w);
      assert Next(s, e, Go(s.(cache := s.cache.Store(a, q)), w, Ready(a, q)));
    case Ready(a, q) =>
      e := SignFails(w);
      assert Next(s, e, Go(s.(cache := s.cache.Forget(a)), w, Leaving(a)));
    case Replied(a, q, reply) =>
      e := SettleReply(w);
      assert Next(s, e, Go(s.(cache := s.cache.Settle(a, q, reply)), w, Leaving(a)));
    case Leaving(a) =>
      e := Unlock(w);
      assert Next(s, e, Go(s.(held := s.held - {s.locks[a]}), w, Idle));
  }

  // ---------------------------------------------------------------------------------------------
  // The bound is reached
  // ---------------------------------------------------------------------------------------------

  lemma {:induction false} Extend(run: seq<State>, events: seq<Event>, e: Event, t: State)
    returns (run': seq<State>, events': seq<Event>)
    requires IsRun(run, events) && Next(run[|events|], e, t)
    ensures IsRun(run', events') && run' == run + [t] && events' == events + [e] && |run| == |events| + 1
  {
    hide Next;
    run', events' := run + [t], events + [e];
    forall i | 0 <= i < |events'|
      ensures StepAt(run', events', i)
    {
      if i < |events| {
        assert StepAt(run, events, i);
      }
    }
  }

  ghost function Alone(a: Account, locks: map<Account, nat>, held: map<nat, Worker>, cache: Cache, p: Phase, b: Book): State {
    State(locks, held, cache, [p], map[a := b])
  }

  /** One worker takes the lock of `a` and learns the sequence, 1. */
  lemma {:induction false} LockAndFetch(a: Account) returns (run: seq<State>, events: seq<Event>)
    ensures IsRun(run, events) && a in run[0].books && run[0].books[a] == Book(1, 1, [], 0, 0, 0)
    ensures run[|events|] == Alone(a, map[a := 7], map[7 := 0], Cache(map[a := 1], map[a := true]), Ready(a, 1),
                                   Book(1, 1, [], 0, 0, 0))
  {
    hide IsRun;
    var empty, b := Cache(map[], map[]), Book(1, 1, [], 0, 0, 0);
    run, events := [Alone(a, map[], map[], empty, Idle, b)], [];
    FirstState(run[0]);
    run, events := Extend(run, events, AskLock(0, a, 7), Alone(a, map[a := 7], map[], empty, Waiting(a, 7), b));
    run, events := Extend(run, events, Acquire(0), Alone(a, map[a := 7], map[7 := 0], empty, Locked(a), b));
    run, events := Extend(run, events, FetchInfo(0), Alone(a, map[a := 7], map[7 := 0], empty, Fetched(a, 1), b));
    var c := Cache(map[a := 1], map[a := true]);
    run, events := Extend(run, events, StoreInfo(0), Alone(a, map[a := 7], map[7 := 0], c, Ready(a, 1), b));
  }

  /** It submits, is answered tesSUCCESS and leaves; then other traffic takes three sequences. */
  lemma {:induction false} SubmitAndJump(a: Account, run0: seq<State>, events0: seq<Event>)
    returns (run: seq<State>, events: seq<Event>)
    requires IsRun(run0, events0)
    requires run0[|events0|] == Alone(a, map[a := 7], map[7 := 0], Cache(map[a := 1], map[a := true]), Ready(a, 1),
                                      Book(1, 1, [], 0, 0, 0))
    ensures IsRun(run, events) && run[0] == run0[0]
    ensures run[|events|] == Alone(a, map[a := 7], map[], Cache(map[a := 2], map[a := true]), Idle, Book(1, 5, [1], 3, 1, 0))
  {
    hide IsRun, LedgerAnswers, Booked, ConsumesSequence;
    SameLength(run0, events0);
    var locks, held, b := map[a := 7], map[7 := 0], Book(1, 2, [1], 0, 0, 0);
    var c1, c2 := Cache(map[a := 1], map[a := true]), Cache(map[a := 2], map[a := true]);
    Landed(a, locks, held, c1);
    var yes := Engine("tesSUCCESS");
    run, events := Extend(run0, events0, Submit(0, yes, true), Alone(a, locks, held, c1, Replied(a, 1, yes), b));
    assert c1.Settle(a, 1, yes) == c2 by {
      Settled(a);
    }
    run, events := Extend(run, events, SettleReply(0), Alone(a, locks, held, c2, Leaving(a), b));
    run, events := Extend(run, events, Unlock(0), Alone(a, locks, map[], c2, Idle, b));
    run, events := Extend(run, events, OtherTraffic(a, 3), Alone(a, locks, map[], c2, Idle, Book(1, 5, [1], 3, 1, 0)));
  }

  lemma Landed(a: Account, locks: map<Account, nat>, held: map<nat, Worker>, c: Cache)
    ensures var yes := Engine("tesSUCCESS");
            Next(Alone(a, locks, held, c, Ready(a, 1), Book(1, 1, [], 0, 0, 0)), Submit(0, yes, true),
                 Alone(a, locks, held, c, Replied(a, 1, yes), Book(1, 2, [1], 0, 0, 0)))
  {
    assert "tesSUCCESS"[2] == 's' && "tefPAST_SEQ"[2] == 'f' && "terPRE_SEQ"[2] == 'r';
    assert [] + [1] == [1];
    assert Booked(Book(1, 1, [], 0, 0, 0), 1, Engine("tesSUCCESS"), true) == Book(1, 2, [1], 0, 0, 0);
  }

  lemma Settled(a: Account)
    ensures Cache(map[a := 1], map[a := true]).Settle(a, 1, Engine("tesSUCCESS")) == Cache(map[a := 2], map[a := true])
  {
  }

  /** A run on which one jump of other traffic, after a submission that was consumed, costs the one
      tefPAST_SEQ reply that the bound allows. */
  lemma {:induction false} OneJumpOneReply(a: Account) returns (run: seq<State>, events: seq<Event>)
    ensures IsRun(run, events) && a in run[0].books
    ensures Jumps(events, a, 0, |events|) == 1 && PastReplies(run, events, a, 0, |events|) == 1
    ensures Consumed(run, events, a, 0, |events|) == [1]
  {
    hide IsRun, Jumps, PastReplies, Consumed;
    run, events := LockAndFetch(a);
    run, events := SubmitAndJump(a, run, events);
    SameLength(run, events);
    var locks, held, b := map[a := 7], map[7 := 0], Book(1, 5, [1], 3, 1, 0);
    var c, past := Cache(map[a := 2], map[a := true]), Engine("tefPAST_SEQ");
    run, events := Extend(run, events, AskLock(0, a, 8), Alone(a, locks, map[], c, Waiting(a, 7), b));
    run, events := Extend(run, events, Acquire(0), Alone(a, locks, held, c, Locked(a), b));
    run, events := Extend(run, events, PeekKnown(0), Alone(a, locks, held, c, Ready(a, 2), b));
    assert "tefPAST_SEQ"[2] == 'f' && "tec"[2] == 'c' && "terPRE_SEQ"[2] == 'r' && "tesSUCCESS"[2] == 's';
    assert "terQUEUED"[2] == 'r';
    run, events := Extend(run, events, Submit(0, past, false),
                          Alone(a, locks, held, c, Replied(a, 2, past), Book(1, 5, [1], 3, 1, 1)));
    BooksTally(run, events, a, 0, |events|);
  }

  lemma SameLength(run: seq<State>, events: seq<Event>)
    requires IsRun(run, events)
    ensures |run| == |events| + 1
  {
  }

  lemma FirstState(s: State)
    requires Init(s)
    ensures IsRun([s], [])
  {
  }
}
