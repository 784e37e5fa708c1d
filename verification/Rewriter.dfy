/** Rewriting of mainnet transactions onto the account pool, over a memory of shared maps. */
module Rewriter {
  import opened AddressMap

  // ---------------------------------------------------------------------------------------------
  // Memory
  // ---------------------------------------------------------------------------------------------

  /** A decoded JSON value: a string, another scalar, or a reference to a map or a list. */
  datatype Value = Plain(text: string) | Str(s: string) | Ref(addr: nat)

  datatype Cell = Fields(m: map<string, Value>) | Items(items: seq<Value>)

  /** The same without references. */
  datatype Json = JPlain(text: string) | JStr(s: string) | JObj(fields: map<string, Json>) | JArr(items: seq<Json>)

  ghost predicate Below(v: Value, n: nat) {
    v.Ref? ==> v.addr < n
  }

  ghost predicate MapBelow(m: map<string, Value>, n: nat) {
    forall k :: k in m ==> Below(m[k], n)
  }

  ghost predicate CellBelow(c: Cell, n: nat) {
    match c
    case Fields(m) => MapBelow(m, n)
    case Items(s) => forall i :: 0 <= i < |s| ==> Below(s[i], n)
  }

  /** Maps and lists refer only to older ones: decoded JSON has no cycles. */
  ghost predicate Ordered(cells: seq<Cell>) {
    forall a :: 0 <= a < |cells| ==> CellBelow(cells[a], a)
  }

  ghost function Tree(cells: seq<Cell>, v: Value): Json
    requires Ordered(cells) && Below(v, |cells|)
    decreases if v.Ref? then v.addr + 1 else 0
  {
    match v
    case Plain(text) => JPlain(text)
    case Str(s) => JStr(s)
    case Ref(a) =>
      assert CellBelow(cells[a], a);
      match cells[a]
      case Fields(m) => JObj(map k | k in m :: Tree(cells, m[k]))
      case Items(s) => JArr(seq(|s|, i requires 0 <= i < |s| => Tree(cells, s[i])))
  }

  ghost function TreeMap(cells: seq<Cell>, m: map<string, Value>): map<string, Json>
    requires Ordered(cells) && MapBelow(m, |cells|)
  {
    map k | k in m :: Tree(cells, m[k])
  }

  /** All that is reachable from `v` lies from `lo` up to `hi`. */
  ghost predicate Within(cells: seq<Cell>, v: Value, lo: nat, hi: nat)
    requires Ordered(cells) && Below(v, |cells|)
    decreases if v.Ref? then v.addr + 1 else 0
  {
    v.Ref? ==>
      && lo <= v.addr < hi
      && CellBelow(cells[v.addr], v.addr)
      && match cells[v.addr]
         case Fields(m) => forall k :: k in m ==> Within(cells, m[k], lo, hi)
         case Items(s) => forall i :: 0 <= i < |s| ==> Within(cells, s[i], lo, hi)
  }

  ghost predicate Agree(cells: seq<Cell>, cells': seq<Cell>, lo: nat, hi: nat) {
    forall a :: lo <= a < hi && a < |cells| ==> a < |cells'| && cells'[a] == cells[a]
  }

  /** What lies in a range does not change with what lies outside. */
  lemma {:induction false} Frame(cells: seq<Cell>, cells': seq<Cell>, v: Value, lo: nat, hi: nat)
    requires Ordered(cells) && Ordered(cells') && Below(v, |cells|) && Within(cells, v, lo, hi)
    requires Agree(cells, cells', lo, hi)
    ensures Below(v, |cells'|) && Within(cells', v, lo, hi) && Tree(cells', v) == Tree(cells, v)
    decreases if v.Ref? then v.addr + 1 else 0
  {
    if v.Ref? {
      var a := v.addr;
      assert cells'[a] == cells[a] && CellBelow(cells[a], a);
      match cells[a]
      case Fields(m) =>
        forall k | k in m
          ensures Below(m[k], |cells'|) && Within(cells', m[k], lo, hi) && Tree(cells', m[k]) == Tree(cells, m[k])
        {
          Frame(cells, cells', m[k], lo, hi);
        }
      case Items(s) =>
        forall i | 0 <= i < |s|
          ensures Below(s[i], |cells'|) && Within(cells', s[i], lo, hi) && Tree(cells', s[i]) == Tree(cells, s[i])
        {
          Frame(cells, cells', s[i], lo, hi);
        }
    }
  }

  lemma {:induction false} BelowWithin(cells: seq<Cell>, v: Value, n: nat)
    requires Ordered(cells) && n <= |cells| && Below(v, n)
    ensures Within(cells, v, 0, n)
    decreases if v.Ref? then v.addr + 1 else 0
  {
    if v.Ref? {
      assert CellBelow(cells[v.addr], v.addr);
      match cells[v.addr]
      case Fields(m) =>
        forall k | k in m
          ensures Within(cells, m[k], 0, n)
        {
          BelowWithin(cells, m[k], n);
        }
      case Items(s) =>
        forall i | 0 <= i < |s|
          ensures Within(cells, s[i], 0, n)
        {
          BelowWithin(cells, s[i], n);
        }
    }
  }

  lemma {:induction false} Wider(cells: seq<Cell>, v: Value, lo: nat, hi: nat, lo': nat, hi': nat)
    requires Ordered(cells) && Below(v, |cells|) && Within(cells, v, lo, hi) && lo' <= lo && hi <= hi'
    ensures Within(cells, v, lo', hi')
    decreases if v.Ref? then v.addr + 1 else 0
  {
    if v.Ref? {
      match cells[v.addr]
      case Fields(m) =>
        forall k | k in m
          ensures Within(cells, m[k], lo', hi')
        {
          Wider(cells, m[k], lo, hi, lo', hi');
        }
      case Items(s) =>
        forall i | 0 <= i < |s|
          ensures Within(cells, s[i], lo', hi')
        {
          Wider(cells, s[i], lo, hi, lo', hi');
        }
    }
  }

  // ---------------------------------------------------------------------------------------------
  // Deep copies
  // ---------------------------------------------------------------------------------------------

  class Memory {
    var cells: seq<Cell>

    constructor ()
      ensures cells == []
    {
      cells := [];
    }
  }

  datatype Span = Span(lo: nat, hi: nat) {
    ghost predicate Apart(other: Span) {
      hi <= other.lo || other.hi <= lo
    }
  }

  /** Each value of `m` lies in a span of its own, in memory from `n` on. */
  ghost predicate Spread(cells: seq<Cell>, m: map<string, Value>, spans: map<string, Span>, n: nat) {
    && Ordered(cells) && MapBelow(m, |cells|) && m.Keys <= spans.Keys
    && (forall k :: k in m ==> n <= spans[k].lo && spans[k].hi <= |cells| && Within(cells, m[k], spans[k].lo, spans[k].hi))
    && (forall k, l :: k in m && l in m && k != l ==> spans[k].Apart(spans[l]))
  }

  /** `out` holds copies of the values of `m`, as they were in `before`, under the keys `keys`. */
  ghost predicate Copies(before: seq<Cell>, m: map<string, Value>, cells: seq<Cell>, out: map<string, Value>, keys: set<string>)
    requires Ordered(before) && MapBelow(m, |before|) && Ordered(cells) && MapBelow(out, |cells|)
  {
    && out.Keys == keys <= m.Keys
    && forall k :: k in keys ==> Tree(cells, out[k]) == Tree(before, m[k])
  }

  /** A later memory holds all of an earlier one, so nothing in it has changed. */
  lemma Later(cells: seq<Cell>, cells': seq<Cell>, v: Value)
    requires Ordered(cells) && Ordered(cells') && cells <= cells' && Below(v, |cells|)
    ensures Below(v, |cells'|) && Tree(cells', v) == Tree(cells, v)
  {
    BelowWithin(cells, v, |cells|);
    Frame(cells, cells', v, 0, |cells|);
  }

  lemma LaterSpread(cells: seq<Cell>, cells': seq<Cell>, m: map<string, Value>, spans: map<string, Span>, n: nat)
    requires Spread(cells, m, spans, n) && Ordered(cells') && cells <= cells'
    ensures Spread(cells', m, spans, n)
    ensures forall k :: k in m ==> Tree(cells', m[k]) == Tree(cells, m[k])
  {
    forall k | k in m
      ensures Below(m[k], |cells'|) && Within(cells', m[k], spans[k].lo, spans[k].hi)
      ensures Tree(cells', m[k]) == Tree(cells, m[k])
    {
      Frame(cells, cells', m[k], spans[k].lo, spans[k].hi);
    }
  }

  lemma SpreadMore(cells: seq<Cell>, cells': seq<Cell>, m: map<string, Value>, spans: map<string, Span>, n: nat,
                   k: string, v: Value)
    requires Spread(cells, m, spans, n) && Ordered(cells') && cells <= cells' && n <= |cells| && k !in m
    requires Below(v, |cells'|) && Within(cells', v, |cells|, |cells'|)
    ensures Spread(cells', m[k := v], spans[k := Span(|cells|, |cells'|)], n)
    ensures forall l :: l in m ==> Tree(cells', m[l]) == Tree(cells, m[l])
  {
    hide Tree, Within, Ordered;
    LaterSpread(cells, cells', m, spans, n);
    var m', spans' := m[k := v], spans[k := Span(|cells|, |cells'|)];
    forall l | l in m'
      ensures Below(m'[l], |cells'|) && n <= spans'[l].lo && spans'[l].hi <= |cells'|
              && Within(cells', m'[l], spans'[l].lo, spans'[l].hi)
    {
      assert l != k ==> l in m;
    }
    forall l, r | l in m' && r in m' && l != r
      ensures spans'[l].Apart(spans'[r])
    {
      assert l != k ==> l in m;
      assert r != k ==> r in m;
    }
  }

  method CloneMap(mem: Memory, m: map<string, Value>, ghost bound: nat) returns (out: map<string, Value>, ghost spans: map<string, Span>)
    requires Ordered(mem.cells) && bound <= |mem.cells| && MapBelow(m, bound)
    modifies mem
    ensures old(mem.cells) <= mem.cells && Spread(mem.cells, out, spans, |old(mem.cells)|)
    ensures Copies(old(mem.cells), m, mem.cells, out, m.Keys)
    decreases bound, 1
  {
    ghost var before := mem.cells;
    out, spans := map[], map[];
    var todo := m.Keys;
    while todo != {}
      invariant todo <= m.Keys && before <= mem.cells
      invariant Spread(mem.cells, out, spans, |before|)
      invariant Copies(before, m, mem.cells, out, m.Keys - todo)
      decreases todo
    {
      hide Tree, Within, Spread, Ordered;
      var k :| k in todo;
      ghost var cells := mem.cells;
      SameMap(before, mem.cells, m, bound, k, out, spans);
      var v := CloneValue(mem, m[k], bound);
      SpreadMore(cells, mem.cells, out, spans, |before|, k, v);
      spans := spans[k := Span(|cells|, |mem.cells|)];
      out := out[k := v];
      SpreadOrdered(mem.cells, out, spans, |before|);
      todo := todo - {k};
    }
  }

  lemma SpreadOrdered(cells: seq<Cell>, m: map<string, Value>, spans: map<string, Span>, n: nat)
    requires Spread(cells, m, spans, n)
    ensures Ordered(cells) && MapBelow(m, |cells|)
  {
  }

  /** The value about to be copied is still what it was. */
  lemma SameMap(before: seq<Cell>, cells: seq<Cell>, m: map<string, Value>, bound: nat, k: string,
                out: map<string, Value>, spans: map<string, Span>)
    requires Ordered(before) && before <= cells && bound <= |before| && MapBelow(m, bound) && k in m
    requires Spread(cells, out, spans, |before|)
    ensures Ordered(cells) && Below(m[k], bound) && Below(m[k], |before|) && Below(m[k], |cells|)
    ensures Tree(cells, m[k]) == Tree(before, m[k])
  {
    Later(before, cells, m[k]);
  }

  method CloneValue(mem: Memory, v: Value, ghost bound: nat) returns (r: Value)
    requires Ordered(mem.cells) && bound <= |mem.cells| && Below(v, bound)
    modifies mem
    ensures old(mem.cells) <= mem.cells && Ordered(mem.cells) && Below(r, |mem.cells|)
    ensures Within(mem.cells, r, |old(mem.cells)|, |mem.cells|)
    ensures Tree(mem.cells, r) == Tree(old(mem.cells), v)
    decreases bound, 0
  {
    if !v.Ref? {
      return v;
    }
    ghost var before := mem.cells;
    var a := v.addr;
    assert CellBelow(before[a], a);
    var cell := mem.cells[a];
    match cell
    case Fields(m) =>
      ghost var spans;
      var out;
      out, spans := CloneMap(mem, m, a);
      ghost var cells := mem.cells;
      mem.cells := mem.cells + [Fields(out)];
      r := Ref(|mem.cells| - 1);
      NewMap(before, cells, v, m, out, spans);
    case Items(s) =>
      var out: seq<Value> := [];
      for i := 0 to |s|
        invariant before <= mem.cells && Ordered(mem.cells) && |out| == i
        invariant ListCopies(before, s, mem.cells, out)
      {
        hide Tree, Within, Ordered;
        ghost var cells := mem.cells;
        Later(before, cells, s[i]);
        var item := CloneValue(mem, s[i], a);
        ListMore(before, s, cells, mem.cells, out, item);
        out := out + [item];
      }
      ghost var cells := mem.cells;
      mem.cells := mem.cells + [Items(out)];
      r := Ref(|mem.cells| - 1);
      NewList(before, cells, v, s, out);
  }

  ghost predicate ListCopies(before: seq<Cell>, s: seq<Value>, cells: seq<Cell>, out: seq<Value>)
    requires Ordered(before) && Ordered(cells) && |before| <= |cells|
  {
    && |out| <= |s|
    && forall i :: 0 <= i < |out| ==> ItemCopies(before, s[i], cells, out[i])
  }

  ghost predicate ItemCopies(before: seq<Cell>, v: Value, cells: seq<Cell>, r: Value)
    requires Ordered(before) && Ordered(cells) && |before| <= |cells|
  {
    && Below(v, |before|) && Below(r, |cells|)
    && Within(cells, r, |before|, |cells|) && Tree(cells, r) == Tree(before, v)
  }

  lemma ListMore(before: seq<Cell>, s: seq<Value>, cells: seq<Cell>, cells': seq<Cell>, out: seq<Value>, item: Value)
    requires Ordered(before) && Ordered(cells) && Ordered(cells') && before <= cells <= cells'
    requires ListCopies(before, s, cells, out) && |out| < |s|
    requires Below(s[|out|], |before|) && Below(item, |cells'|) && Within(cells', item, |cells|, |cells'|)
    requires Tree(cells', item) == Tree(before, s[|out|])
    ensures ListCopies(before, s, cells', out + [item])
  {
    hide Tree, Within, Ordered;
    forall i | 0 <= i < |out|
      ensures ItemCopies(before, s[i], cells', out[i])
    {
      assert ItemCopies(before, s[i], cells, out[i]);
      Frame(cells, cells', out[i], |before|, |cells|);
      Wider(cells', out[i], |before|, |cells|, |before|, |cells'|);
    }
    Wider(cells', item, |cells|, |cells'|, |before|, |cells'|);
  }

  lemma NewList(before: seq<Cell>, cells: seq<Cell>, v: Value, s: seq<Value>, out: seq<Value>)
    requires Ordered(before) && Ordered(cells) && before <= cells
    requires v.Ref? && v.addr < |before| && before[v.addr] == Items(s)
    requires ListCopies(before, s, cells, out) && |out| == |s|
    ensures var cells', r := cells + [Items(out)], Ref(|cells|);
            Ordered(cells') && Within(cells', r, |before|, |cells'|) && Tree(cells', r) == Tree(before, v)
  {
    var cells' := cells + [Items(out)];
    assert Ordered(cells') by {
      assert forall i :: 0 <= i < |out| ==> ItemCopies(before, s[i], cells, out[i]);
    }
    forall i | 0 <= i < |out|
      ensures Within(cells', out[i], |before|, |cells'|) && Tree(cells', out[i]) == Tree(before, s[i])
    {
      assert ItemCopies(before, s[i], cells, out[i]);
      Frame(cells, cells', out[i], |before|, |cells|);
      Wider(cells', out[i], |before|, |cells|, |before|, |cells'|);
    }
  }

  lemma NewMap(before: seq<Cell>, cells: seq<Cell>, v: Value, m: map<string, Value>, out: map<string, Value>, spans: map<string, Span>)
    requires Ordered(before) && before <= cells
    requires v.Ref? && v.addr < |before| && before[v.addr] == Fields(m) && MapBelow(m, |before|)
    requires Spread(cells, out, spans, |before|) && Copies(before, m, cells, out, m.Keys)
    ensures var cells', r := cells + [Fields(out)], Ref(|cells|);
            Ordered(cells') && Within(cells', r, |before|, |cells'|) && Tree(cells', r) == Tree(before, v)
  {
    hide Tree, Within;
    var cells' := cells + [Fields(out)];
    LaterSpread(cells, cells', out, spans, |before|);
    forall k | k in out
      ensures Within(cells', out[k], |before|, |cells'|) && Tree(cells', out[k]) == Tree(before, m[k])
    {
      Wider(cells', out[k], spans[k].lo, spans[k].hi, |before|, |cells'|);
    }
    SameFields(before, v, m, cells', Ref(|cells|), out, |before|, |cells'|);
  }

  lemma SameFields(before: seq<Cell>, v: Value, m: map<string, Value>, cells: seq<Cell>, r: Value, out: map<string, Value>,
                   lo: nat, hi: nat)
    requires Ordered(before) && v.Ref? && v.addr < |before| && before[v.addr] == Fields(m) && MapBelow(m, |before|)
    requires Ordered(cells) && r.Ref? && r.addr < |cells| && cells[r.addr] == Fields(out) && MapBelow(out, |cells|)
    requires lo <= r.addr < hi && out.Keys == m.Keys
    requires forall k :: k in out ==> Within(cells, out[k], lo, hi) && Tree(cells, out[k]) == Tree(before, m[k])
    ensures Within(cells, r, lo, hi) && Tree(cells, r) == Tree(before, v)
  {
    hide Tree, Within;
    FieldsTree(before, v, m);
    FieldsTree(cells, r, out);
    FieldsWithin(cells, r, out, lo, hi);
    assert TreeMap(cells, out) == TreeMap(before, m);
  }

  lemma FieldsTree(cells: seq<Cell>, v: Value, m: map<string, Value>)
    requires Ordered(cells) && v.Ref? && v.addr < |cells| && cells[v.addr] == Fields(m)
    ensures MapBelow(m, |cells|) && Tree(cells, v) == JObj(TreeMap(cells, m))
  {
    assert CellBelow(cells[v.addr], v.addr);
  }

  lemma FieldsWithin(cells: seq<Cell>, v: Value, m: map<string, Value>, lo: nat, hi: nat)
    requires Ordered(cells) && v.Ref? && v.addr < |cells| && cells[v.addr] == Fields(m) && MapBelow(m, |cells|)
    ensures Within(cells, v, lo, hi) <==> lo <= v.addr < hi && forall k :: k in m ==> Within(cells, m[k], lo, hi)
  {
    assert CellBelow(cells[v.addr], v.addr);
  }

  // ---------------------------------------------------------------------------------------------
  // Rewriting, on trees
  // ---------------------------------------------------------------------------------------------

  datatype Wallet = Wallet(address: string, seed: string)

  const ADDRESS_FIELDS := ["Account", "Destination", "Owner", "RegularKey", "Issuer", "Authorize",
                           "Unauthorize", "NFTokenMinter", "Amendment"]

  const STRIPPED := ["Sequence", "SigningPubKey", "TxnSignature", "Signers", "hash", "Fee",
                     "LastLedgerSequence", "TicketSequence"]

  const IOU_FIELDS := ["Amount", "TakerPays", "TakerGets", "LimitAmount", "SendMax", "DeliverMin", "FeeBase"]

  /** The fields that hold an address. */
  ghost predicate HoldsAddress(f: string) {
    || f == "Account" || f == "Destination" || f == "Owner" || f == "RegularKey" || f == "Issuer"
    || f == "Authorize" || f == "Unauthorize" || f == "NFTokenMinter" || f == "Amendment"
  }

  /** The fields that may hold an amount of an issued token. */
  ghost predicate HoldsToken(f: string) {
    || f == "Amount" || f == "TakerPays" || f == "TakerGets" || f == "LimitAmount" || f == "SendMax"
    || f == "DeliverMin" || f == "FeeBase"
  }

  /** The fields that a server fills in. */
  ghost predicate ServerAssigned(f: string) {
    || f == "Sequence" || f == "SigningPubKey" || f == "TxnSignature" || f == "Signers" || f == "hash" || f == "Fee"
    || f == "LastLedgerSequence" || f == "TicketSequence"
  }

  /** The fields listed are those of the three kinds. */
  lemma FieldsListed(f: string)
    ensures f in ADDRESS_FIELDS <==> HoldsAddress(f)
    ensures f in IOU_FIELDS <==> HoldsToken(f)
    ensures f in STRIPPED <==> ServerAssigned(f)
  {
    ListedAt(ADDRESS_FIELDS, f);
    ListedAt(IOU_FIELDS, f);
    ListedAt(STRIPPED, f);
  }

  lemma ListedAt(fs: seq<string>, f: string)
    requires 7 <= |fs| <= 9
    ensures f in fs <==> f == fs[0] || f == fs[1] || f == fs[2] || f == fs[3] || f == fs[4] || f == fs[5] || f == fs[6]
                         || (7 < |fs| && f == fs[7]) || (8 < |fs| && f == fs[8])
  {
  }

  type Object = map<string, Json>

  /** A transaction under way, and the memo so far. */
  datatype Draft = Draft(tx: Object, memo: Memo)

  function AddressAt(pool: seq<Wallet>, slot: nat): string {
    if slot < |pool| then pool[slot].address else ""
  }

  /** The address a field holds, if it is a string and not empty. */
  function Address(j: Json): string {
    if j.JStr? then j.s else ""
  }

  function IssuerOf(j: Json): string {
    if j.JObj? && "issuer" in j.fields then Address(j.fields["issuer"]) else ""
  }

  function AddressStep(pool: seq<Wallet>, d: Draft, f: string): Draft
    requires 0 < |pool|
  {
    if f in d.tx && Address(d.tx[f]) != "" then
      var a := Address(d.tx[f]);
      Draft(d.tx[f := JStr(AddressAt(pool, d.memo.SlotOf(a, |pool|)))], d.memo.Meet(a, |pool|))
    else d
  }

  function IssuerStep(pool: seq<Wallet>, d: Draft, f: string): Draft
    requires 0 < |pool|
  {
    if f in d.tx && IssuerOf(d.tx[f]) != "" then
      var a := IssuerOf(d.tx[f]);
      Draft(d.tx[f := JObj(d.tx[f].fields["issuer" := JStr(AddressAt(pool, d.memo.SlotOf(a, |pool|)))])],
            d.memo.Meet(a, |pool|))
    else d
  }

  ghost function AddressSteps(pool: seq<Wallet>, d: Draft, fs: seq<string>): Draft
    requires 0 < |pool|
  {
    if fs == [] then d else AddressStep(pool, AddressSteps(pool, d, fs[..|fs| - 1]), fs[|fs| - 1])
  }

  ghost function IssuerSteps(pool: seq<Wallet>, d: Draft, fs: seq<string>): Draft
    requires 0 < |pool|
  {
    if fs == [] then d else IssuerStep(pool, IssuerSteps(pool, d, fs[..|fs| - 1]), fs[|fs| - 1])
  }

  ghost function Without(tx: Object, fs: seq<string>): Object {
    map f | f in tx && f !in fs :: tx[f]
  }

  /** Account is a string and some issuer is the same string, both possibly empty. */
  ghost predicate Collapsed(tx: Object) {
    && "Account" in tx && tx["Account"].JStr?
    && exists f :: HoldsToken(f) && CollapsedAt(tx, f)
  }

  ghost predicate CollapsedAt(tx: Object, f: string)
    requires "Account" in tx
  {
    && f in tx && tx[f].JObj? && "issuer" in tx[f].fields && tx[f].fields["issuer"].JStr?
    && tx[f].fields["issuer"] == tx["Account"]
  }

  ghost function RewriteTree(pool: seq<Wallet>, memo: Memo, tx: Object): Draft
    requires 0 < |pool|
  {
    IssuerSteps(pool, AddressSteps(pool, Draft(Without(tx, STRIPPED), memo), ADDRESS_FIELDS), IOU_FIELDS)
  }

  // ---------------------------------------------------------------------------------------------
  // Rewriting, in memory
  // ---------------------------------------------------------------------------------------------

  class Rewriter {
    const pool: seq<Wallet>
    var memo: Memo

    ghost predicate Valid()
      reads this
    {
      0 < |pool| && forall a :: a in memo.cache ==> memo.cache[a] < |pool|
    }

    constructor (pool: seq<Wallet>)
      requires 0 < |pool|
      ensures Valid() && this.pool == pool && memo == EMPTY
    {
      this.pool := pool;
      memo := EMPTY;
    }

    method MapAddress(a: string) returns (r: string)
      requires Valid()
      modifies this
      ensures Valid() && memo == old(memo).Meet(a, |pool|)
      ensures r == pool[if a in old(memo).cache then old(memo).cache[a] else old(memo).counter % |pool|].address
    {
      if a in memo.cache {
        return pool[memo.cache[a]].address;
      }
      var idx := memo.counter % |pool|;
      memo := Memo(memo.cache[a := idx], memo.counter + 1);
      r := pool[idx].address;
    }

    /** The seed of the first wallet with that address. */
    method SecretFor(account: string) returns (seed: string, found: bool)
      ensures found <==> exists i :: 0 <= i < |pool| && pool[i].address == account
      ensures found ==> exists i :: 0 <= i < |pool| && pool[i] == Wallet(account, seed)
    {
      for i := 0 to |pool|
        invariant forall j :: 0 <= j < i ==> pool[j].address != account
      {
        if pool[i].address == account {
          return pool[i].seed, true;
        }
      }
      return "", false;
    }

    method MapAddressField(ghost cells: seq<Cell>, out: map<string, Value>, f: string, ghost spans: map<string, Span>, ghost n: nat)
      returns (r: map<string, Value>)
      requires Valid() && Spread(cells, out, spans, n)
      modifies this
      ensures Valid() && Spread(cells, r, spans, n)
      ensures Draft(TreeMap(cells, r), memo) == AddressStep(pool, Draft(TreeMap(cells, out), old(memo)), f)
    {
      r := out;
      if f in out && out[f].Str? && out[f].s != "" {
        var mapped := MapAddress(out[f].s);
        r := out[f := Str(mapped)];
        SetString(cells, out, spans, n, f, mapped);
      }
    }

    method MapAddresses(ghost cells: seq<Cell>, out: map<string, Value>, ghost spans: map<string, Span>, ghost n: nat)
      returns (r: map<string, Value>)
      requires Valid() && Spread(cells, out, spans, n)
      modifies this
      ensures Valid() && Spread(cells, r, spans, n)
      ensures Draft(TreeMap(cells, r), memo) == AddressSteps(pool, Draft(TreeMap(cells, out), old(memo)), ADDRESS_FIELDS)
    {
      r := out;
      for i := 0 to |ADDRESS_FIELDS|
        invariant Valid() && Spread(cells, r, spans, n)
        invariant Draft(TreeMap(cells, r), memo)
                  == AddressSteps(pool, Draft(TreeMap(cells, out), old(memo)), ADDRESS_FIELDS[..i])
      {
        hide Spread, TreeMap, AddressStep;
        assert ADDRESS_FIELDS[..i + 1][..i] == ADDRESS_FIELDS[..i];
        r := MapAddressField(cells, r, ADDRESS_FIELDS[i], spans, n);
      }
      assert ADDRESS_FIELDS[..|ADDRESS_FIELDS|] == ADDRESS_FIELDS;
    }

    method MapIssuerField(mem: Memory, out: map<string, Value>, f: string, ghost spans: map<string, Span>, ghost n: nat)
      requires Valid() && Spread(mem.cells, out, spans, n) && n <= |mem.cells|
      modifies this, mem
      ensures Valid() && Spread(mem.cells, out, spans, n)
      ensures n <= |mem.cells| && mem.cells[..n] == old(mem.cells)[..n]
      ensures Draft(TreeMap(mem.cells, out), memo)
              == IssuerStep(pool, Draft(TreeMap(old(mem.cells), out), old(memo)), f)
    {
      if f in out && out[f].Ref? {
        var c := out[f].addr;
        match mem.cells[c] {
          case Items(_) =>
          case Fields(m) =>
            FieldsTree(mem.cells, out[f], m);
            assert "issuer" in m ==> TreeMap(mem.cells, m)["issuer"] == Tree(mem.cells, m["issuer"]);
            if "issuer" in m && m["issuer"].Str? && m["issuer"].s != "" {
              ghost var cells := mem.cells;
              var mapped := MapAddress(m["issuer"].s);
              mem.cells := mem.cells[c := Fields(m["issuer" := Str(mapped)])];
              SetIssuer(cells, out, spans, n, f, m, mapped);
            }
        }
      }
    }

    method MapIssuers(mem: Memory, out: map<string, Value>, ghost spans: map<string, Span>, ghost n: nat)
      requires Valid() && Spread(mem.cells, out, spans, n) && n <= |mem.cells|
      modifies this, mem
      ensures Valid() && Spread(mem.cells, out, spans, n)
      ensures n <= |mem.cells| && mem.cells[..n] == old(mem.cells)[..n]
      ensures Draft(TreeMap(mem.cells, out), memo)
              == IssuerSteps(pool, Draft(TreeMap(old(mem.cells), out), old(memo)), IOU_FIELDS)
    {
      for i := 0 to |IOU_FIELDS|
        invariant Valid() && Spread(mem.cells, out, spans, n)
        invariant n <= |mem.cells| && mem.cells[..n] == old(mem.cells)[..n]
        invariant Draft(TreeMap(mem.cells, out), memo)
                  == IssuerSteps(pool, Draft(TreeMap(old(mem.cells), out), old(memo)), IOU_FIELDS[..i])
      {
        hide Spread, TreeMap, IssuerStep;
        assert IOU_FIELDS[..i + 1][..i] == IOU_FIELDS[..i];
        MapIssuerField(mem, out, IOU_FIELDS[i], spans, n);
      }
      assert IOU_FIELDS[..|IOU_FIELDS|] == IOU_FIELDS;
    }

    method IsCollapsed(mem: Memory, out: map<string, Value>) returns (r: bool)
      requires Ordered(mem.cells) && MapBelow(out, |mem.cells|)
      ensures r <==> Collapsed(TreeMap(mem.cells, out))
    {
      ghost var tree := TreeMap(mem.cells, out);
      if "Account" !in out || !out["Account"].Str? {
        assert "Account" in out ==> tree["Account"] == Tree(mem.cells, out["Account"]);
        return false;
      }
      assert tree["Account"] == JStr(out["Account"].s);
      forall f
        ensures f in IOU_FIELDS <==> HoldsToken(f)
      {
        FieldsListed(f);
      }
      for i := 0 to |IOU_FIELDS|
        invariant forall j :: 0 <= j < i ==> !CollapsedAt(tree, IOU_FIELDS[j])
      {
        var f := IOU_FIELDS[i];
        assert f in IOU_FIELDS;
        if f in out && out[f].Ref? && mem.cells[out[f].addr].Fields? {
          var m := mem.cells[out[f].addr].m;
          assert CellBelow(mem.cells[out[f].addr], out[f].addr);
          assert tree[f] == Tree(mem.cells, out[f]);
          assert "issuer" in m ==> tree[f].fields["issuer"] == Tree(mem.cells, m["issuer"]);
          if "issuer" in m && m["issuer"].Str? && m["issuer"].s == out["Account"].s {
            return true;
          }
        }
      }
      r := false;
    }

    /** Rewrites a deep copy of the transaction in place. Memory only grows: nothing of the
        transaction handed in is changed, though its maps are shared. */
    method Rewrite(mem: Memory, tx: map<string, Value>) returns (ok: bool, out: map<string, Value>)
      requires Valid() && Ordered(mem.cells) && MapBelow(tx, |mem.cells|)
      modifies this, mem
      ensures Valid() && old(mem.cells) <= mem.cells && Ordered(mem.cells) && MapBelow(out, |mem.cells|)
      ensures var d := RewriteTree(pool, old(memo), TreeMap(old(mem.cells), tx));
              && memo == d.memo
              && (ok <==> !Collapsed(d.tx))
              && (ok ==> TreeMap(mem.cells, out) == d.tx)
    {
      hide Spread, TreeMap, Copies, Collapsed, AddressSteps, IssuerSteps, Without;
      ghost var before := mem.cells;
      ghost var n := |before|;
      ghost var spans;
      out, spans := CloneMap(mem, tx, |mem.cells|);
      ClonedTree(before, tx, mem.cells, out, spans, n);
      ghost var copy := out;
      out := Strip(out);
      Stripped(mem.cells, copy, out, spans, n);
      out := MapAddresses(mem.cells, out, spans, n);
      MapIssuers(mem, out, spans, n);
      assert mem.cells[..n] == before;
      SpreadOrdered(mem.cells, out, spans, n);
      var collapsed := IsCollapsed(mem, out);
      if collapsed {
        return false, out;
      }
      ok := true;
    }
  }

  method Strip(out: map<string, Value>) returns (r: map<string, Value>)
    ensures r == map f | f in out && f !in STRIPPED :: out[f]
  {
    r := out;
    for i := 0 to |STRIPPED|
      invariant forall f :: f in r <==> f in out && f !in STRIPPED[..i]
      invariant forall f :: f in r ==> r[f] == out[f]
    {
      assert STRIPPED[..i + 1] == STRIPPED[..i] + [STRIPPED[i]];
      r := r - {STRIPPED[i]};
    }
    assert STRIPPED[..|STRIPPED|] == STRIPPED;
  }

  lemma Stripped(cells: seq<Cell>, out: map<string, Value>, r: map<string, Value>, spans: map<string, Span>, n: nat)
    requires Spread(cells, out, spans, n) && r == map f | f in out && f !in STRIPPED :: out[f]
    ensures Spread(cells, r, spans, n) && TreeMap(cells, r) == Without(TreeMap(cells, out), STRIPPED)
  {
    hide Tree, Within, Ordered;
  }

  lemma ClonedTree(before: seq<Cell>, m: map<string, Value>, cells: seq<Cell>, out: map<string, Value>,
                   spans: map<string, Span>, n: nat)
    requires Ordered(before) && MapBelow(m, |before|) && Spread(cells, out, spans, n)
    requires Copies(before, m, cells, out, m.Keys)
    ensures TreeMap(cells, out) == TreeMap(before, m)
  {
    hide Tree, Within;
  }

  lemma SetString(cells: seq<Cell>, out: map<string, Value>, spans: map<string, Span>, n: nat, f: string, s: string)
    requires Spread(cells, out, spans, n) && f in out
    ensures Spread(cells, out[f := Str(s)], spans, n)
    ensures TreeMap(cells, out[f := Str(s)]) == TreeMap(cells, out)[f := JStr(s)]
  {
    assert Tree(cells, Str(s)) == JStr(s) && Within(cells, Str(s), spans[f].lo, spans[f].hi);
    hide Tree, Within, Ordered;
  }

  /** Setting the issuer in one field's map shows in that field, and nowhere else. */
  lemma SetIssuer(cells: seq<Cell>, out: map<string, Value>, spans: map<string, Span>, n: nat, f: string,
                  m: map<string, Value>, s: string)
    requires Spread(cells, out, spans, n) && f in out && out[f].Ref? && cells[out[f].addr] == Fields(m)
    requires "issuer" in m && m["issuer"].Str? && MapBelow(m, |cells|)
    ensures n <= out[f].addr
    ensures var cells' := cells[out[f].addr := Fields(m["issuer" := Str(s)])];
            && Spread(cells', out, spans, n)
            && TreeMap(cells, out)[f] == JObj(TreeMap(cells, m))
            && TreeMap(cells', out) == TreeMap(cells, out)[f := JObj(TreeMap(cells, m)["issuer" := JStr(s)])]
  {
    hide Tree, Within;
    var c := out[f].addr;
    var cells' := cells[c := Fields(m["issuer" := Str(s)])];
    assert CellBelow(cells[c], c);
    FieldsWithin(cells, out[f], m, spans[f].lo, spans[f].hi);
    forall k | k in out && k != f
      ensures Within(cells', out[k], spans[k].lo, spans[k].hi) && Tree(cells', out[k]) == Tree(cells, out[k])
    {
      assert spans[k].Apart(spans[f]);
      Frame(cells, cells', out[k], spans[k].lo, spans[k].hi);
    }
    IssuerCell(cells, cells', out[f], m, s, spans[f].lo, spans[f].hi);
  }

  lemma IssuerCell(cells: seq<Cell>, cells': seq<Cell>, v: Value, m: map<string, Value>, s: string, lo: nat, hi: nat)
    requires Ordered(cells) && Ordered(cells') && v.Ref? && v.addr < |cells| && cells[v.addr] == Fields(m) && MapBelow(m, |cells|)
    requires "issuer" in m && cells' == cells[v.addr := Fields(m["issuer" := Str(s)])]
    requires Within(cells, v, lo, hi)
    ensures Within(cells', v, lo, hi)
    ensures Tree(cells, v) == JObj(TreeMap(cells, m))
    ensures Tree(cells', v) == JObj(TreeMap(cells, m)["issuer" := JStr(s)])
  {
    assert Tree(cells', Str(s)) == JStr(s) && Within(cells', Str(s), lo, hi);
    hide Tree, Within;
    var m' := m["issuer" := Str(s)];
    FieldsTree(cells, v, m);
    FieldsWithin(cells, v, m, lo, hi);
    assert CellBelow(cells[v.addr], v.addr) && CellBelow(cells'[v.addr], v.addr);
    forall k | k in m && k != "issuer"
      ensures Within(cells', m[k], lo, hi) && Tree(cells', m[k]) == Tree(cells, m[k])
    {
      BelowWithin(cells, m[k], v.addr);
      Frame(cells, cells', m[k], 0, v.addr);
      Both(cells, cells', m[k], lo, hi, v.addr);
    }
    FieldsTree(cells', v, m');
    FieldsWithin(cells', v, m', lo, hi);
    assert TreeMap(cells', m') == TreeMap(cells, m)["issuer" := JStr(s)];
  }

  lemma {:induction false} Both(cells: seq<Cell>, cells': seq<Cell>, v: Value, lo: nat, hi: nat, top: nat)
    requires Ordered(cells) && Ordered(cells') && top <= |cells| && Below(v, top) && Below(v, |cells'|)
    requires Within(cells, v, lo, hi) && Agree(cells, cells', 0, top)
    ensures Within(cells', v, lo, hi)
    decreases if v.Ref? then v.addr + 1 else 0
  {
    if v.Ref? {
      assert cells'[v.addr] == cells[v.addr] && CellBelow(cells[v.addr], v.addr);
      match cells[v.addr]
      case Fields(m) =>
        forall k | k in m
          ensures Within(cells', m[k], lo, hi)
        {
          Both(cells, cells', m[k], lo, hi, top);
        }
      case Items(s) =>
        forall i | 0 <= i < |s|
          ensures Within(cells', s[i], lo, hi)
        {
          Both(cells, cells', s[i], lo, hi, top);
        }
    }
  }
}
