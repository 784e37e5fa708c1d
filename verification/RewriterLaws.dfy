/** What rewriting means for the transactions, over any number of them. */
module RewriterLaws {
  import opened AddressMap
  import opened Rewriter

  /** Derived wallets have different addresses, and none is empty. */
  ghost predicate GoodPool(pool: seq<Wallet>) {
    && 0 < |pool|
    && (forall i :: 0 <= i < |pool| ==> pool[i].address != "")
    && (forall i, j :: 0 <= i < j < |pool| ==> pool[i].address != pool[j].address)
  }

  ghost predicate MemoOk(m: Memo, n: nat) {
    forall a :: a in m.cache ==> m.cache[a] < n
  }

  ghost predicate Grows(m: Memo, m': Memo) {
    forall a :: a in m.cache ==> a in m'.cache && m'.cache[a] == m.cache[a]
  }

  // ---------------------------------------------------------------------------------------------
  // The memo
  // ---------------------------------------------------------------------------------------------

  /** The address in a field, if there is one. */
  ghost function AddressIn(tx: Object, f: string): seq<string> {
    if f in tx && tx[f].JStr? && tx[f].s != "" then [tx[f].s] else []
  }

  /** The issuer of the amount in a field, if there is one. */
  ghost function IssuerIn(tx: Object, f: string): seq<string> {
    if f in tx && tx[f].JObj? && "issuer" in tx[f].fields then AddressIn(tx[f].fields, "issuer") else []
  }

  /** The addresses a rewrite maps, in the order it does. */
  ghost function Mentioned(tx: Object): seq<string> {
    AddressIn(tx, "Account") + AddressIn(tx, "Destination") + AddressIn(tx, "Owner") + AddressIn(tx, "RegularKey")
    + AddressIn(tx, "Issuer") + AddressIn(tx, "Authorize") + AddressIn(tx, "Unauthorize")
    + AddressIn(tx, "NFTokenMinter") + AddressIn(tx, "Amendment")
    + IssuerIn(tx, "Amount") + IssuerIn(tx, "TakerPays") + IssuerIn(tx, "TakerGets") + IssuerIn(tx, "LimitAmount")
    + IssuerIn(tx, "SendMax") + IssuerIn(tx, "DeliverMin") + IssuerIn(tx, "FeeBase")
  }

  ghost function AddressesOf(tx: Object, fs: seq<string>): seq<string> {
    if fs == [] then [] else AddressesOf(tx, fs[..|fs| - 1]) + AddressIn(tx, fs[|fs| - 1])
  }

  ghost function IssuersOf(tx: Object, fs: seq<string>): seq<string> {
    if fs == [] then [] else IssuersOf(tx, fs[..|fs| - 1]) + IssuerIn(tx, fs[|fs| - 1])
  }

  lemma AddressesNext(tx: Object, fs: seq<string>, i: nat)
    requires i < |fs|
    ensures AddressesOf(tx, fs[..i + 1]) == AddressesOf(tx, fs[..i]) + AddressIn(tx, fs[i])
  {
    assert fs[..i + 1][..i] == fs[..i];
  }

  lemma IssuersNext(tx: Object, fs: seq<string>, i: nat)
    requires i < |fs|
    ensures IssuersOf(tx, fs[..i + 1]) == IssuersOf(tx, fs[..i]) + IssuerIn(tx, fs[i])
  {
    assert fs[..i + 1][..i] == fs[..i];
  }

  lemma NothingIn(tx: Object, fs: seq<string>)
    requires fs == []
    ensures AddressesOf(tx, fs) == IssuersOf(tx, fs) == []
  {
  }

  lemma NineAddresses(tx: Object, fs: seq<string>)
    requires |fs| == 9
    ensures AddressesOf(tx, fs)
            == AddressIn(tx, fs[0]) + AddressIn(tx, fs[1]) + AddressIn(tx, fs[2]) + AddressIn(tx, fs[3]) + AddressIn(tx, fs[4])
               + AddressIn(tx, fs[5]) + AddressIn(tx, fs[6]) + AddressIn(tx, fs[7]) + AddressIn(tx, fs[8])
  {
    NothingIn(tx, fs[..0]);
    hide AddressIn, AddressesOf;
    AddressesNext(tx, fs, 0);
    AddressesNext(tx, fs, 1);
    AddressesNext(tx, fs, 2);
    AddressesNext(tx, fs, 3);
    AddressesNext(tx, fs, 4);
    AddressesNext(tx, fs, 5);
    AddressesNext(tx, fs, 6);
    AddressesNext(tx, fs, 7);
    AddressesNext(tx, fs, 8);
    assert [] + AddressIn(tx, fs[0]) == AddressIn(tx, fs[0]) && fs[..9] == fs;
  }

  lemma SevenIssuers(tx: Object, fs: seq<string>)
    requires |fs| == 7
    ensures IssuersOf(tx, fs)
            == IssuerIn(tx, fs[0]) + IssuerIn(tx, fs[1]) + IssuerIn(tx, fs[2]) + IssuerIn(tx, fs[3]) + IssuerIn(tx, fs[4])
               + IssuerIn(tx, fs[5]) + IssuerIn(tx, fs[6])
  {
    NothingIn(tx, fs[..0]);
    hide IssuerIn, IssuersOf;
    IssuersNext(tx, fs, 0);
    IssuersNext(tx, fs, 1);
    IssuersNext(tx, fs, 2);
    IssuersNext(tx, fs, 3);
    IssuersNext(tx, fs, 4);
    IssuersNext(tx, fs, 5);
    IssuersNext(tx, fs, 6);
    assert [] + IssuerIn(tx, fs[0]) == IssuerIn(tx, fs[0]) && fs[..7] == fs;
  }

  lemma MentionedAre(tx: Object)
    ensures AddressesOf(tx, ADDRESS_FIELDS) + IssuersOf(tx, IOU_FIELDS) == Mentioned(tx)
  {
    hide AddressIn, IssuerIn, AddressesOf, IssuersOf;
    NineAddresses(tx, ADDRESS_FIELDS);
    SevenIssuers(tx, IOU_FIELDS);
  }

  lemma {:induction false} MeetJoin(m: Memo, a: seq<string>, b: seq<string>, n: nat)
    requires 0 < n
    ensures MeetAll(m, a + b, n) == MeetAll(MeetAll(m, a, n), b, n)
  {
    if b == [] {
      assert a + b == a;
    } else {
      var k := |b| - 1;
      MeetJoin(m, a, b[..k], n);
      assert (a + b)[..|a + b| - 1] == a + b[..k];
    }
  }

  lemma MeetOne(m: Memo, a: seq<string>, x: string, n: nat)
    requires 0 < n
    ensures MeetAll(m, a + [x], n) == MeetAll(m, a, n).Meet(x, n)
  {
    assert (a + [x])[..|a|] == a;
  }

  ghost predicate Fresh(fs: seq<string>) {
    forall i, j :: 0 <= i < j < |fs| ==> fs[i] != fs[j]
  }

  lemma FreshLast(fs: seq<string>)
    requires fs != [] && Fresh(fs)
    ensures Fresh(fs[..|fs| - 1]) && fs[|fs| - 1] !in fs[..|fs| - 1]
    ensures forall f :: f in fs <==> f in fs[..|fs| - 1] || f == fs[|fs| - 1]
  {
    assert fs == fs[..|fs| - 1] + [fs[|fs| - 1]];
  }

  /** A field once visited holds the address its own is mapped to. */
  ghost predicate AddressMapped(pool: seq<Wallet>, before: Object, d: Draft, f: string, visited: bool) {
    && f in before && f in d.tx
    && if visited && Address(before[f]) != "" then
         Address(before[f]) in d.memo.cache && d.tx[f] == JStr(AddressAt(pool, d.memo.cache[Address(before[f])]))
       else d.tx[f] == before[f]
  }

  ghost predicate IssuerMapped(pool: seq<Wallet>, before: Object, d: Draft, f: string, visited: bool) {
    && f in before && f in d.tx
    && if visited && IssuerOf(before[f]) != "" then
         && IssuerOf(before[f]) in d.memo.cache
         && d.tx[f] == JObj(before[f].fields["issuer" := JStr(AddressAt(pool, d.memo.cache[IssuerOf(before[f])]))])
       else d.tx[f] == before[f]
  }

  lemma {:induction false} AddressStepsDo(pool: seq<Wallet>, d: Draft, fs: seq<string>)
    requires 0 < |pool| && Fresh(fs)
    ensures var d' := AddressSteps(pool, d, fs);
            && d'.tx.Keys == d.tx.Keys
            && d'.memo == MeetAll(d.memo, AddressesOf(d.tx, fs), |pool|)
            && Grows(d.memo, d'.memo)
            && forall f :: f in d.tx ==> AddressMapped(pool, d.tx, d', f, f in fs)
  {
    if fs != [] {
      var front, f := fs[..|fs| - 1], fs[|fs| - 1];
      FreshLast(fs);
      AddressStepsDo(pool, d, front);
      var e := AddressSteps(pool, d, front);
      assert f in d.tx ==> AddressMapped(pool, d.tx, e, f, false);
      AddressStepDoes(pool, d.tx, e, fs);
      if f in d.tx && Address(d.tx[f]) != "" {
        MeetOne(d.memo, AddressesOf(d.tx, front), Address(d.tx[f]), |pool|);
      } else {
        assert AddressesOf(d.tx, fs) == AddressesOf(d.tx, front);
      }
    }
  }

  lemma AddressStepDoes(pool: seq<Wallet>, tx: Object, e: Draft, fs: seq<string>)
    requires 0 < |pool| && fs != [] && Fresh(fs) && e.tx.Keys == tx.Keys
    requires forall f :: f in tx ==> AddressMapped(pool, tx, e, f, f in fs[..|fs| - 1])
    ensures var d' := AddressStep(pool, e, fs[|fs| - 1]);
            && d'.tx.Keys == tx.Keys && Grows(e.memo, d'.memo)
            && forall f :: f in tx ==> AddressMapped(pool, tx, d', f, f in fs)
  {
    FreshLast(fs);
    var d' := AddressStep(pool, e, fs[|fs| - 1]);
    forall f | f in tx
      ensures AddressMapped(pool, tx, d', f, f in fs)
    {
      assert AddressMapped(pool, tx, e, f, f in fs[..|fs| - 1]);
    }
  }

  lemma {:induction false} IssuerStepsDo(pool: seq<Wallet>, d: Draft, fs: seq<string>)
    requires 0 < |pool| && Fresh(fs)
    ensures var d' := IssuerSteps(pool, d, fs);
            && d'.tx.Keys == d.tx.Keys
            && d'.memo == MeetAll(d.memo, IssuersOf(d.tx, fs), |pool|)
            && Grows(d.memo, d'.memo)
            && forall f :: f in d.tx ==> IssuerMapped(pool, d.tx, d', f, f in fs)
  {
    if fs != [] {
      var front, f := fs[..|fs| - 1], fs[|fs| - 1];
      FreshLast(fs);
      IssuerStepsDo(pool, d, front);
      var e := IssuerSteps(pool, d, front);
      assert f in d.tx ==> IssuerMapped(pool, d.tx, e, f, false);
      IssuerStepDoes(pool, d.tx, e, fs);
      if f in d.tx && IssuerOf(d.tx[f]) != "" {
        MeetOne(d.memo, IssuersOf(d.tx, front), IssuerOf(d.tx[f]), |pool|);
      } else {
        assert IssuersOf(d.tx, fs) == IssuersOf(d.tx, front);
      }
    }
  }

  lemma IssuerStepDoes(pool: seq<Wallet>, tx: Object, e: Draft, fs: seq<string>)
    requires 0 < |pool| && fs != [] && Fresh(fs) && e.tx.Keys == tx.Keys
    requires forall f :: f in tx ==> IssuerMapped(pool, tx, e, f, f in fs[..|fs| - 1])
    ensures var d' := IssuerStep(pool, e, fs[|fs| - 1]);
            && d'.tx.Keys == tx.Keys && Grows(e.memo, d'.memo)
            && forall f :: f in tx ==> IssuerMapped(pool, tx, d', f, f in fs)
  {
    FreshLast(fs);
    var d' := IssuerStep(pool, e, fs[|fs| - 1]);
    forall f | f in tx
      ensures IssuerMapped(pool, tx, d', f, f in fs)
    {
      assert IssuerMapped(pool, tx, e, f, f in fs[..|fs| - 1]);
    }
  }

  lemma FieldLists()
    ensures Fresh(ADDRESS_FIELDS) && Fresh(IOU_FIELDS)
    ensures forall f :: f in ADDRESS_FIELDS ==> f !in IOU_FIELDS && f !in STRIPPED
    ensures forall f :: f in IOU_FIELDS ==> f !in STRIPPED
  {
  }

  /** `j` is the address of the wallet that `a` is mapped to. */
  ghost predicate Replaces(pool: seq<Wallet>, memo: Memo, a: string, j: Json) {
    a in memo.cache && memo.cache[a] < |pool| && j == JStr(pool[memo.cache[a]].address)
  }

  ghost predicate NonEmpty(j: Json) {
    j.JStr? && j.s != ""
  }

  ghost predicate HasIssuer(j: Json) {
    j.JObj? && "issuer" in j.fields && NonEmpty(j.fields["issuer"])
  }

  /** The issuer is replaced, and nothing else about the amount. */
  ghost predicate IssuerReplaced(pool: seq<Wallet>, memo: Memo, was: Json, is_: Json)
    requires HasIssuer(was)
  {
    && is_.JObj? && is_.fields.Keys == was.fields.Keys
    && Replaces(pool, memo, was.fields["issuer"].s, is_.fields["issuer"])
    && forall k :: k in was.fields && k != "issuer" ==> is_.fields[k] == was.fields[k]
  }

  /** What becomes of one field of a transaction. */
  ghost predicate FieldRewritten(pool: seq<Wallet>, tx: Object, d: Draft, f: string)
    requires f in tx
  {
    if ServerAssigned(f) then f !in d.tx
    else
      && f in d.tx
      && if HoldsAddress(f) && NonEmpty(tx[f]) then Replaces(pool, d.memo, tx[f].s, d.tx[f])
         else if HoldsToken(f) && HasIssuer(tx[f]) then IssuerReplaced(pool, d.memo, tx[f], d.tx[f])
         else d.tx[f] == tx[f]
  }

  lemma {:induction false} MeetAllOk(m: Memo, addresses: seq<string>, n: nat)
    requires 0 < n && MemoOk(m, n)
    ensures MemoOk(MeetAll(m, addresses, n), n)
  {
    if addresses != [] {
      MeetAllOk(m, addresses[..|addresses| - 1], n);
    }
  }

  lemma {:induction false} AddressesKept(tx: Object, fs: seq<string>)
    requires forall f :: f in fs ==> f !in STRIPPED
    ensures AddressesOf(Without(tx, STRIPPED), fs) == AddressesOf(tx, fs)
    ensures IssuersOf(Without(tx, STRIPPED), fs) == IssuersOf(tx, fs)
  {
    if fs != [] {
      AddressesKept(tx, fs[..|fs| - 1]);
      assert fs[|fs| - 1] in fs;
    }
  }

  /** A rewrite drops the server's fields, maps every address and issuer by the memo it leaves, and
      changes nothing else; the memo is that of having met the addresses mentioned, in order. */
  lemma RewriteDoes(pool: seq<Wallet>, memo: Memo, tx: Object)
    requires 0 < |pool| && MemoOk(memo, |pool|)
    ensures var d := RewriteTree(pool, memo, tx);
            && d.memo == MeetAll(memo, Mentioned(tx), |pool|) && MemoOk(d.memo, |pool|)
            && (forall f :: f in d.tx ==> f in tx)
            && (forall f :: f in tx ==> FieldRewritten(pool, tx, d, f))
  {
    hide Address, IssuerOf, AddressesOf, IssuersOf, AddressMapped, IssuerMapped, FieldRewritten, Mentioned, MemoOk;
    FieldLists();
    var kept := Without(tx, STRIPPED);
    var e := AddressSteps(pool, Draft(kept, memo), ADDRESS_FIELDS);
    var d := RewriteTree(pool, memo, tx);
    AddressStepsDo(pool, Draft(kept, memo), ADDRESS_FIELDS);
    IssuerStepsDo(pool, e, IOU_FIELDS);
    IssuersKept(pool, kept, e, IOU_FIELDS);
    MeetJoin(memo, AddressesOf(kept, ADDRESS_FIELDS), IssuersOf(kept, IOU_FIELDS), |pool|);
    AddressesKept(tx, ADDRESS_FIELDS);
    AddressesKept(tx, IOU_FIELDS);
    MentionedAre(tx);
    MeetAllOk(memo, Mentioned(tx), |pool|);
    forall f | f in tx
      ensures FieldRewritten(pool, tx, d, f)
    {
      FieldDone(pool, tx, e, d, f);
    }
  }

  lemma FieldDone(pool: seq<Wallet>, tx: Object, e: Draft, d: Draft, f: string)
    requires f in tx && MemoOk(d.memo, |pool|) && Grows(e.memo, d.memo)
    requires e.tx.Keys == d.tx.Keys == Without(tx, STRIPPED).Keys
    requires f in Without(tx, STRIPPED) ==>
               && AddressMapped(pool, Without(tx, STRIPPED), e, f, f in ADDRESS_FIELDS)
               && IssuerMapped(pool, e.tx, d, f, f in IOU_FIELDS)
    ensures FieldRewritten(pool, tx, d, f)
  {
    FieldsListed(f);
    hide HoldsAddress, HoldsToken, ServerAssigned;
    if f in Without(tx, STRIPPED) {
      FieldLists();
    }
  }

  lemma {:induction false} IssuersKept(pool: seq<Wallet>, kept: Object, e: Draft, fs: seq<string>)
    requires 0 < |pool| && e.tx.Keys == kept.Keys
    requires forall f :: f in fs ==> f in IOU_FIELDS
    requires forall f :: f in kept ==> AddressMapped(pool, kept, e, f, f in ADDRESS_FIELDS)
    ensures IssuersOf(e.tx, fs) == IssuersOf(kept, fs)
  {
    if fs != [] {
      var f := fs[|fs| - 1];
      IssuersKept(pool, kept, e, fs[..|fs| - 1]);
      FieldLists();
      assert f in fs;
      if f in kept {
        assert AddressMapped(pool, kept, e, f, false);
      }
    }
  }

  // ---------------------------------------------------------------------------------------------
  // Any sequence of rewrites
  // ---------------------------------------------------------------------------------------------

  ghost function MemoAfter(pool: seq<Wallet>, txs: seq<Object>): Memo
    requires 0 < |pool|
  {
    if txs == [] then EMPTY else RewriteTree(pool, MemoAfter(pool, txs[..|txs| - 1]), txs[|txs| - 1]).memo
  }

  ghost function MentionedIn(txs: seq<Object>): seq<string> {
    if txs == [] then [] else MentionedIn(txs[..|txs| - 1]) + Mentioned(txs[|txs| - 1])
  }

  /** After any rewrites, accepted or not, the memo is that of the addresses they mention. So the
      laws of the mapping hold of it: one slot for each address for good, different slots for the
      first as many as there are wallets, and loads that differ by at most one. */
  lemma {:induction false} MemoIsMeetings(pool: seq<Wallet>, txs: seq<Object>)
    requires 0 < |pool|
    ensures MemoAfter(pool, txs) == MeetAll(EMPTY, MentionedIn(txs), |pool|)
  {
    if txs != [] {
      var front, tx := txs[..|txs| - 1], txs[|txs| - 1];
      MemoIsMeetings(pool, front);
      SlotsInPool(MentionedIn(front), |pool|);
      RewriteDoes(pool, MemoAfter(pool, front), tx);
      MeetJoin(EMPTY, MentionedIn(front), Mentioned(tx), |pool|);
    }
  }

  lemma SlotsInPool(addresses: seq<string>, n: nat)
    requires 0 < n
    ensures MemoOk(MeetAll(EMPTY, addresses, n), n)
  {
    MeetAllDeals(addresses, n);
    var m, order := MeetAll(EMPTY, addresses, n), FirstMet(addresses);
    forall a | a in m.cache
      ensures m.cache[a] < n
    {
      var i :| 0 <= i < |order| && order[i] == a;
    }
  }

  /** The rewrite of `tx` after those of `txs`. */
  ghost function RewriteNext(pool: seq<Wallet>, txs: seq<Object>, tx: Object): Draft
    requires 0 < |pool|
  {
    RewriteTree(pool, MemoAfter(pool, txs), tx)
  }

  lemma NextMemo(pool: seq<Wallet>, txs: seq<Object>, tx: Object)
    requires 0 < |pool|
    ensures RewriteNext(pool, txs, tx).memo == MeetAll(EMPTY, MentionedIn(txs + [tx]), |pool|)
    ensures MemoOk(RewriteNext(pool, txs, tx).memo, |pool|)
  {
    assert (txs + [tx])[..|txs|] == txs;
    MemoIsMeetings(pool, txs + [tx]);
    SlotsInPool(MentionedIn(txs + [tx]), |pool|);
  }

  /** An accepted transaction that had an Account can be signed, by a wallet of the pool, and trades
      in no token that its own account issues. */
  lemma AcceptedIsSignable(pool: seq<Wallet>, txs: seq<Object>, tx: Object)
    requires 0 < |pool| && !Collapsed(RewriteNext(pool, txs, tx).tx)
    requires "Account" in tx && NonEmpty(tx["Account"])
    ensures var d := RewriteNext(pool, txs, tx).tx;
            && "Account" in d && d["Account"].JStr?
            && (exists w :: w in pool && w.address == d["Account"].s)
            && forall f :: HoldsToken(f) && f in d && d[f].JObj? && "issuer" in d[f].fields ==>
                 d[f].fields["issuer"] != d["Account"]
  {
    hide RewriteTree, MentionedIn, MeetAll, HoldsToken;
    NextDoes(pool, txs, tx);
    var d := RewriteNext(pool, txs, tx);
    AccountDone(pool, tx, d);
    var slot := d.memo.cache[tx["Account"].s];
    assert pool[slot] in pool;
    forall f | HoldsToken(f) && f in d.tx && d.tx[f].JObj? && "issuer" in d.tx[f].fields
      ensures d.tx[f].fields["issuer"] != d.tx["Account"]
    {
      assert !CollapsedAt(d.tx, f);
    }
  }

  /** One more rewrite. */
  lemma NextDoes(pool: seq<Wallet>, txs: seq<Object>, tx: Object)
    requires 0 < |pool|
    ensures var d := RewriteNext(pool, txs, tx);
            && d.memo == MeetAll(EMPTY, MentionedIn(txs + [tx]), |pool|) && MemoOk(d.memo, |pool|)
            && (forall f :: f in d.tx ==> f in tx)
            && (forall f :: f in tx ==> FieldRewritten(pool, tx, d, f))
  {
    hide RewriteTree, MentionedIn, MeetAll, FieldRewritten, MemoOk;
    MemoIsMeetings(pool, txs);
    SlotsInPool(MentionedIn(txs), |pool|);
    RewriteDoes(pool, MemoAfter(pool, txs), tx);
    NextMemo(pool, txs, tx);
  }

  lemma AccountDone(pool: seq<Wallet>, tx: Object, d: Draft)
    requires "Account" in tx && FieldRewritten(pool, tx, d, "Account")
    ensures "Account" in d.tx
    ensures if NonEmpty(tx["Account"]) then Replaces(pool, d.memo, tx["Account"].s, d.tx["Account"])
            else d.tx["Account"] == tx["Account"]
  {
  }

  /** An issuer field collapses exactly when the issuer has the account's slot. */
  lemma CollapseIsSharedSlot(pool: seq<Wallet>, tx: Object, d: Draft, f: string)
    requires GoodPool(pool) && HoldsToken(f) && f in tx
    requires (forall g :: g in tx ==> FieldRewritten(pool, tx, d, g))
    requires "Account" in tx && tx["Account"].JStr?
    ensures "Account" in d.tx && d.tx["Account"].JStr?
    ensures CollapsedAt(d.tx, f) <==>
              && tx[f].JObj? && "issuer" in tx[f].fields && tx[f].fields["issuer"].JStr?
              && var a, i := tx["Account"].s, tx[f].fields["issuer"].s;
                 (a == "" && i == "") || (a != "" && i != "" && d.memo.Known(a) == d.memo.Known(i))
  {
    AccountDone(pool, tx, d);
    assert FieldRewritten(pool, tx, d, f);
    TokenDone(pool, tx, d, f);
  }

  lemma TokenDone(pool: seq<Wallet>, tx: Object, d: Draft, f: string)
    requires HoldsToken(f) && f in tx && FieldRewritten(pool, tx, d, f)
    ensures f in d.tx
    ensures if HasIssuer(tx[f]) then IssuerReplaced(pool, d.memo, tx[f], d.tx[f]) else d.tx[f] == tx[f]
  {
    FieldsListed(f);
    FieldLists();
    hide HoldsAddress, HoldsToken, ServerAssigned;
  }

  /** While the distinct addresses met do not outnumber the wallets, a rewrite rejects exactly the
      transactions whose Account was an issuer in them to begin with. */
  lemma RejectsOnlySelfIssued(pool: seq<Wallet>, txs: seq<Object>, tx: Object)
    requires GoodPool(pool) && |FirstMet(MentionedIn(txs + [tx]))| <= |pool|
    ensures Collapsed(RewriteNext(pool, txs, tx).tx) <==> Collapsed(tx)
  {
    hide RewriteTree, MeetAll, FirstMet, FieldRewritten, HoldsToken, MentionedIn;
    NextDoes(pool, txs, tx);
    var d := RewriteNext(pool, txs, tx);
    if "Account" in tx {
      AccountDone(pool, tx, d);
    }
    if "Account" in tx && tx["Account"].JStr? {
      forall f | HoldsToken(f) && f in tx
        ensures CollapsedAt(d.tx, f) <==> CollapsedAt(tx, f)
      {
        CollapseIsSharedSlot(pool, tx, d, f);
        TokenDone(pool, tx, d, f);
        if NonEmpty(tx["Account"]) && HasIssuer(tx[f]) && tx["Account"] != tx[f].fields["issuer"] {
          SlotsApart(MentionedIn(txs + [tx]), d.memo, |pool|, tx["Account"].s, tx[f].fields["issuer"].s);
        }
      }
    }
  }

  lemma SlotsApart(addresses: seq<string>, m: Memo, n: nat, a: string, b: string)
    requires 0 < n && m == MeetAll(EMPTY, addresses, n) && |FirstMet(addresses)| <= n
    requires a in m.cache && b in m.cache && a != b
    ensures m.cache[a] != m.cache[b]
  {
    MeetAllDeals(addresses, n);
    FirstMetAll(addresses, a);
    FirstMetAll(addresses, b);
    EarlyAddressesApart(addresses, n, a, b);
  }

  /** With one wallet to share, a pool rejects every transaction that has an account and an issuer. */
  lemma SmallPoolRejects(w: Wallet, txs: seq<Object>, tx: Object, f: string)
    requires w.address != "" && "Account" in tx && NonEmpty(tx["Account"])
    requires HoldsToken(f) && f in tx && HasIssuer(tx[f])
    ensures Collapsed(RewriteNext([w], txs, tx).tx)
  {
    hide RewriteTree, MemoAfter, MeetAll, MentionedIn, Mentioned, FieldRewritten, HoldsToken;
    NextDoes([w], txs, tx);
    var d := RewriteNext([w], txs, tx);
    AccountDone([w], tx, d);
    TokenDone([w], tx, d, f);
    assert CollapsedAt(d.tx, f);
  }
}
