/** The mapping of mainnet addresses to slots of the account pool. */
module AddressMap {
  /** What the rewriter remembers: the slot of each address met, and how many slots it has dealt. */
  datatype Memo = Memo(cache: map<string, nat>, counter: nat) {
    function SlotOf(a: string, n: nat): (slot: nat)
      requires 0 < n
    {
      if a in cache then cache[a] else counter % n
    }

    function Meet(a: string, n: nat): Memo
      requires 0 < n
    {
      if a in cache then this else Memo(cache[a := counter % n], counter + 1)
    }

    /** Slot of an address that has been met. */
    function Known(a: string): nat {
      if a in cache then cache[a] else 0
    }
  }

  const EMPTY := Memo(map[], 0)

  ghost function MeetAll(m: Memo, addresses: seq<string>, n: nat): Memo
    requires 0 < n
  {
    if addresses == [] then m
    else MeetAll(m, addresses[..|addresses| - 1], n).Meet(addresses[|addresses| - 1], n)
  }

  /** The distinct addresses in the order they were first met. */
  ghost function FirstMet(addresses: seq<string>): seq<string> {
    if addresses == [] then []
    else
      var before, last := FirstMet(addresses[..|addresses| - 1]), addresses[|addresses| - 1];
      if last in before then before else before + [last]
  }

  ghost predicate Distinct(s: seq<string>) {
    forall i, j :: 0 <= i < j < |s| ==> s[i] != s[j]
  }

  /** The memo deals slots round-robin to the addresses of `order`. */
  ghost predicate Deals(m: Memo, order: seq<string>, n: nat)
    requires 0 < n
  {
    && Distinct(order) && m.counter == |order|
    && (forall a :: a in m.cache <==> a in order)
    && (forall i :: 0 <= i < |order| ==> order[i] in m.cache && m.cache[order[i]] == i % n)
  }

  lemma MeetDeals(m: Memo, order: seq<string>, a: string, n: nat)
    requires 0 < n && Deals(m, order, n)
    ensures Deals(m.Meet(a, n), if a in order then order else order + [a], n)
  {
  }

  lemma {:induction false} MeetAllDeals(addresses: seq<string>, n: nat)
    requires 0 < n
    ensures Deals(MeetAll(EMPTY, addresses, n), FirstMet(addresses), n)
  {
    if addresses != [] {
      var front := addresses[..|addresses| - 1];
      MeetAllDeals(front, n);
      MeetDeals(MeetAll(EMPTY, front, n), FirstMet(front), addresses[|addresses| - 1], n);
    }
  }

  /** What has been dealt is never changed: the mapping is one function for the rewriter's life. */
  lemma {:induction false} MeetAllKeeps(m: Memo, addresses: seq<string>, a: string, n: nat)
    requires 0 < n && a in m.cache
    ensures a in MeetAll(m, addresses, n).cache && MeetAll(m, addresses, n).cache[a] == m.cache[a]
  {
    if addresses != [] {
      MeetAllKeeps(m, addresses[..|addresses| - 1], a, n);
    }
  }

  lemma {:induction false} FirstMetAll(addresses: seq<string>, a: string)
    ensures a in FirstMet(addresses) <==> a in addresses
    ensures |FirstMet(addresses)| <= |addresses|
  {
    if addresses != [] {
      var n := |addresses| - 1;
      FirstMetAll(addresses[..n], a);
      FirstMetAll(addresses[..n], addresses[n]);
      assert addresses == addresses[..n] + [addresses[n]];
    }
  }

  /** While no more distinct addresses have been met than there are slots, different addresses have
      different slots. */
  lemma EarlyAddressesApart(addresses: seq<string>, n: nat, a: string, b: string)
    requires 0 < n && |FirstMet(addresses)| <= n
    requires a in addresses && b in addresses && a != b
    ensures var m := MeetAll(EMPTY, addresses, n); a in m.cache && b in m.cache && m.cache[a] != m.cache[b]
  {
    hide MeetAll, FirstMet;
    MeetAllDeals(addresses, n);
    FirstMetAll(addresses, a);
    FirstMetAll(addresses, b);
    OwnSlots(MeetAll(EMPTY, addresses, n), FirstMet(addresses), n, a, b);
  }

  lemma OwnSlots(m: Memo, order: seq<string>, n: nat, a: string, b: string)
    requires 0 < n && Deals(m, order, n) && |order| <= n && a in order && b in order && a != b
    ensures a in m.cache && b in m.cache && m.cache[a] != m.cache[b]
  {
    var i :| 0 <= i < |order| && order[i] == a;
    var j :| 0 <= j < |order| && order[j] == b;
    Divides(0, i, n, i);
    Divides(0, j, n, j);
  }

  /** How many of the first `k` deals went to a slot. */
  ghost function Dealt(k: nat, slot: nat, n: nat): nat
    requires 0 < n
  {
    if k == 0 then 0 else Dealt(k - 1, slot, n) + if (k - 1) % n == slot then 1 else 0
  }

  lemma {:induction false} DealtIs(k: nat, slot: nat, n: nat)
    requires slot < n
    ensures Dealt(k, slot, n) == k / n + if slot < k % n then 1 else 0
  {
    if 0 < k {
      DealtIs(k - 1, slot, n);
      Successor(k - 1, n);
    }
  }

  lemma Successor(k: nat, n: nat)
    requires 0 < n
    ensures if k % n == n - 1 then (k + 1) / n == k / n + 1 && (k + 1) % n == 0
            else (k + 1) / n == k / n && (k + 1) % n == k % n + 1
  {
    var q, r := k / n, k % n;
    assert k == q * n + r;
    if r == n - 1 {
      assert k + 1 == (q + 1) * n;
      Divides(q + 1, 0, n, k + 1);
    } else {
      Divides(q, r + 1, n, k + 1);
    }
  }

  lemma Divides(q: nat, r: nat, n: nat, k: nat)
    requires r < n && k == q * n + r
    ensures k / n == q && k % n == r
  {
    ZeroFactor(k / n - q, n, r - k % n);
  }

  lemma ZeroFactor(d: int, n: int, x: int)
    requires d * n == x && -n < x < n
    ensures d == 0
  {
  }

  /** The addresses that share a slot. */
  ghost function Load(m: Memo, slot: nat): set<string> {
    set a | a in m.cache && m.cache[a] == slot
  }

  /** Undoing the last deal. */
  lemma WithoutLast(m: Memo, order: seq<string>, slot: nat, n: nat)
    requires 0 < n && Deals(m, order, n) && order != []
    ensures var k := |order| - 1; var front := Memo(m.cache - {order[k]}, k);
            && Deals(front, order[..k], n)
            && Load(m, slot) == Load(front, slot) + (if k % n == slot then {order[k]} else {})
            && order[k] !in Load(front, slot)
  {
    var k := |order| - 1;
    assert order == order[..k] + [order[k]];
    assert order[k] !in order[..k];
  }

  lemma {:induction false} LoadIsDealt(m: Memo, order: seq<string>, slot: nat, n: nat)
    requires 0 < n && Deals(m, order, n)
    ensures |Load(m, slot)| == Dealt(|order|, slot, n)
    decreases |order|
  {
    if order == [] {
      assert Load(m, slot) == {};
    } else {
      hide Deals, Load;
      WithoutLast(m, order, slot, n);
      var k := |order| - 1;
      LoadIsDealt(Memo(m.cache - {order[k]}, k), order[..k], slot, n);
    }
  }

  /** After any addresses, no slot has more than one address more than another. */
  lemma LoadsBalanced(addresses: seq<string>, n: nat, s: nat, t: nat)
    requires s < n && t < n
    ensures var m := MeetAll(EMPTY, addresses, n); |Load(m, s)| <= |Load(m, t)| + 1
  {
    MeetAllDeals(addresses, n);
    var m, order := MeetAll(EMPTY, addresses, n), FirstMet(addresses);
    LoadIsDealt(m, order, s, n);
    LoadIsDealt(m, order, t, n);
    DealtIs(|order|, s, n);
    DealtIs(|order|, t, n);
  }
}
