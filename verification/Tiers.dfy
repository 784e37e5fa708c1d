/** Partition of the wallet pool into behaviour tiers by weight. */
module Tiers {
  datatype Tier = Rich | AtReserve | Multisig | RegularKey | Blackholed

  /** The order in which tiers are stamped. */
  const ORDER: seq<Tier> := [Rich, AtReserve, Multisig, RegularKey, Blackholed]

  datatype Weights = Weights(rich: nat, atReserve: nat, multisig: nat, regularKey: nat, blackholed: nat) {
    function Of(t: Tier): nat {
      match t
      case Rich => rich
      case AtReserve => atReserve
      case Multisig => multisig
      case RegularKey => regularKey
      case Blackholed => blackholed
    }

    function Total(): nat {
      rich + atReserve + multisig + regularKey + blackholed
    }
  }

  class Wallet {
    var tier: Tier

    constructor ()
      ensures tier == Rich
    {
      tier := Rich;
    }
  }

  ghost function TiersOf(wallets: seq<Wallet>): (r: seq<Tier>)
    reads wallets
    ensures |r| == |wallets|
  {
    seq(|wallets|, i requires 0 <= i < |wallets| reads wallets => wallets[i].tier)
  }

  function Product(a: nat, b: nat): nat {
    a * b
  }

  function Quotient(a: nat, b: nat): nat
    requires 0 < b
  {
    a / b
  }

  /** A tier's share of `n` wallets, rounded down. */
  function Share(weights: Weights, t: Tier, n: nat): nat
    requires 0 < weights.Total()
  {
    Quotient(Product(weights.Of(t), n), weights.Total())
  }

  ghost predicate Distinct(wallets: seq<Wallet>) {
    forall i, j :: 0 <= i < j < |wallets| ==> wallets[i] != wallets[j]
  }

  /** How many wallets the first `j` tiers take. */
  ghost function Before(targets: map<Tier, nat>, j: nat): nat
    requires j <= |ORDER| && forall t :: t in targets
  {
    if j == 0 then 0 else Before(targets, j - 1) + targets[ORDER[j - 1]]
  }

  lemma {:induction false} BeforeGrows(targets: map<Tier, nat>, j: nat, l: nat)
    requires j <= l <= |ORDER| && forall t :: t in targets
    ensures Before(targets, j) <= Before(targets, l)
  {
    if j < l {
      BeforeGrows(targets, j, l - 1);
    }
  }

  function SharesSum(weights: Weights, n: nat): nat
    requires 0 < weights.Total()
  {
    Share(weights, Rich, n) + Share(weights, AtReserve, n) + Share(weights, Multisig, n)
    + Share(weights, RegularKey, n) + Share(weights, Blackholed, n)
  }

  /** What rounding down takes from a tier, in units of 1/total of a wallet. */
  ghost function Lost(weights: Weights, t: Tier, n: nat): (r: nat)
    requires 0 < weights.Total()
    ensures n * weights.Of(t) == weights.Total() * Share(weights, t, n) + r && r < weights.Total()
  {
    (weights.Of(t) * n) % weights.Total()
  }

  /** Each rounded share loses less than one wallet, so the remainder is at most four. */
  lemma SharesFit(weights: Weights, n: nat)
    requires 0 < weights.Total()
    ensures SharesSum(weights, n) <= n <= SharesSum(weights, n) + 4
  {
    hide Share, Lost;
    var total := weights.Total();
    var lost := Lost(weights, Rich, n) + Lost(weights, AtReserve, n) + Lost(weights, Multisig, n)
                + Lost(weights, RegularKey, n) + Lost(weights, Blackholed, n);
    Distribute(n, weights.rich, weights.atReserve, weights.multisig, weights.regularKey, weights.blackholed);
    Distribute(total, Share(weights, Rich, n), Share(weights, AtReserve, n), Share(weights, Multisig, n),
               Share(weights, RegularKey, n), Share(weights, Blackholed, n));
    Commute(total, n, SharesSum(weights, n));
    Between(total, n - SharesSum(weights, n), lost);
  }

  lemma Distribute(x: int, a: int, b: int, c: int, d: int, e: int)
    ensures (a + b + c + d + e) * x == x * a + x * b + x * c + x * d + x * e
  {
  }

  lemma Commute(x: int, y: int, z: int)
    ensures x * (y - z) == x * y - z * x
  {
  }

  lemma Between(total: nat, k: int, lost: nat)
    requires total * k == lost < 5 * total
    ensures 0 <= k <= 4
  {
  }

  /** How many wallets are in tier `t`. */
  ghost function Count(tiers: seq<Tier>, t: Tier): nat {
    if tiers == [] then 0 else Count(tiers[..|tiers| - 1], t) + if tiers[|tiers| - 1] == t then 1 else 0
  }

  lemma {:induction false} CountRun(tiers: seq<Tier>, t: Tier, lo: nat, hi: nat)
    requires lo <= hi <= |tiers|
    requires forall i :: 0 <= i < |tiers| ==> (tiers[i] == t <==> lo <= i < hi)
    ensures Count(tiers, t) == hi - lo
  {
    var n := |tiers| - 1;
    if n >= 0 {
      if lo == hi {
        CountRun(tiers[..n], t, 0, 0);
      } else {
        CountRun(tiers[..n], t, lo, if hi == n + 1 then n else hi);
      }
    }
  }

  /** Stamps the wallets in order, as many with each tier as its target says. */
  method Stamp(wallets: seq<Wallet>, targets: map<Tier, nat>) returns (ghost stamped: seq<int>)
    requires Distinct(wallets)
    requires (forall t :: t in targets) && Before(targets, 5) == |wallets|
    modifies wallets
    ensures stamped == Upto(|wallets|)
    ensures forall i :: 0 <= i < |wallets| ==> InBlock(targets, i, wallets[i].tier)
  {
    stamped := [];
    var idx := 0;
    for j := 0 to |ORDER|
      invariant idx == Before(targets, j) <= |wallets|
      invariant stamped == Upto(idx)
      invariant forall i :: 0 <= i < idx ==> InBlock(targets, i, wallets[i].tier)
    {
      var t := ORDER[j];
      BeforeGrows(targets, j + 1, |ORDER|);
      for k := 0 to targets[t]
        invariant idx == Before(targets, j) + k
        invariant stamped == Upto(idx)
        invariant forall i :: 0 <= i < idx ==> InBlock(targets, i, wallets[i].tier)
      {
        assert InBlock(targets, idx, t);
        wallets[idx].tier := t;
        stamped := stamped + [idx];
        idx := idx + 1;
      }
    }
  }

  ghost function Upto(n: nat): (s: seq<int>)
    ensures |s| == n && forall i :: 0 <= i < n ==> s[i] == i
  {
    seq(n, i => i)
  }

  /** Each tier but Rich has its rounded share, and Rich the rest: its own share and at most four
      more. */
  ghost predicate Divided(weights: Weights, tiers: seq<Tier>)
    requires 0 < weights.rich + weights.atReserve + weights.multisig + weights.regularKey + weights.blackholed
  {
    var n, total := |tiers|, weights.rich + weights.atReserve + weights.multisig + weights.regularKey + weights.blackholed;
    && Count(tiers, AtReserve) == weights.atReserve * n / total
    && Count(tiers, Multisig) == weights.multisig * n / total
    && Count(tiers, RegularKey) == weights.regularKey * n / total
    && Count(tiers, Blackholed) == weights.blackholed * n / total
    && weights.rich * n / total <= Count(tiers, Rich) <= weights.rich * n / total + 4
    && Count(tiers, Rich) + Count(tiers, AtReserve) + Count(tiers, Multisig) + Count(tiers, RegularKey)
       + Count(tiers, Blackholed) == n
  }

  /** The tiers follow each other: Rich, AtReserve, Multisig, RegularKey, Blackholed. */
  ghost predicate InOrder(tiers: seq<Tier>) {
    forall i, j :: 0 <= i < j < |tiers| ==>
      && (tiers[j] == Rich ==> tiers[i] == Rich)
      && (tiers[j] == AtReserve ==> tiers[i] in {Rich, AtReserve})
      && (tiers[j] == Multisig ==> tiers[i] in {Rich, AtReserve, Multisig})
      && (tiers[j] == RegularKey ==> tiers[i] != Blackholed)
  }

  /** With no weights every wallet is Rich. Otherwise every wallet is stamped once, in order, and the
      pool divided as the weights ask. */
  method AssignTiers(wallets: seq<Wallet>, weights: Weights) returns (ghost stamped: seq<int>)
    requires Distinct(wallets)
    modifies wallets
    ensures stamped == Upto(|wallets|)
    ensures if weights.rich == weights.atReserve == weights.multisig == weights.regularKey == weights.blackholed == 0
            then forall i :: 0 <= i < |wallets| ==> wallets[i].tier == Rich
            else Divided(weights, TiersOf(wallets)) && InOrder(TiersOf(wallets))
  {
    hide Share, SharesSum, Targets, Count, InBlock, Divided;
    var n := |wallets|;
    var total := weights.Total();
    if total == 0 {
      stamped := [];
      for i := 0 to n
        invariant stamped == Upto(i)
        invariant forall k :: 0 <= k < i ==> wallets[k].tier == Rich
      {
        wallets[i].tier := Rich;
        stamped := stamped + [i];
      }
      return;
    }
    SharesFit(weights, n);
    TargetsFill(weights, n);
    stamped := Stamp(wallets, Targets(weights, n));
    Partition(weights, TiersOf(wallets));
  }

  /** Wallets stamped to the targets divide the pool as the weights ask. */
  lemma Partition(weights: Weights, tiers: seq<Tier>)
    requires 0 < weights.Total() && SharesSum(weights, |tiers|) <= |tiers|
    requires var targets := Targets(weights, |tiers|);
             (forall t :: t in targets) && forall i :: 0 <= i < |tiers| ==> InBlock(targets, i, tiers[i])
    ensures Divided(weights, tiers) && InOrder(tiers)
  {
    hide Share, SharesSum;
    SharesAre(weights, |tiers|);
    TargetsFill(weights, |tiers|);
    SharesFit(weights, |tiers|);
    BlocksCount(Targets(weights, |tiers|), tiers);
  }

  lemma SharesAre(weights: Weights, n: nat)
    requires 0 < weights.Total()
    ensures var total := weights.rich + weights.atReserve + weights.multisig + weights.regularKey + weights.blackholed;
            && Share(weights, Rich, n) == weights.rich * n / total
            && Share(weights, AtReserve, n) == weights.atReserve * n / total
            && Share(weights, Multisig, n) == weights.multisig * n / total
            && Share(weights, RegularKey, n) == weights.regularKey * n / total
            && Share(weights, Blackholed, n) == weights.blackholed * n / total
            && SharesSum(weights, n) == Share(weights, Rich, n) + Share(weights, AtReserve, n) + Share(weights, Multisig, n)
                                        + Share(weights, RegularKey, n) + Share(weights, Blackholed, n)
  {
  }

  /** The rounded shares, with the remainder given to Rich. */
  function Targets(weights: Weights, n: nat): map<Tier, nat>
    requires 0 < weights.Total() && SharesSum(weights, n) <= n
  {
    map[Rich := Share(weights, Rich, n) + n - SharesSum(weights, n),
        AtReserve := Share(weights, AtReserve, n),
        Multisig := Share(weights, Multisig, n),
        RegularKey := Share(weights, RegularKey, n),
        Blackholed := Share(weights, Blackholed, n)]
  }

  lemma TargetsFill(weights: Weights, n: nat)
    requires 0 < weights.Total() && SharesSum(weights, n) <= n
    ensures forall t :: t in Targets(weights, n)
    ensures Before(Targets(weights, n), 5) == n
  {
    hide Share;
    forall t
      ensures t in Targets(weights, n)
    {
      match t
      case Rich =>
      case AtReserve =>
      case Multisig =>
      case RegularKey =>
      case Blackholed =>
    }
    FiveBlocks(Targets(weights, n));
  }

  function Rank(t: Tier): (r: nat)
    ensures r < |ORDER| && ORDER[r] == t
  {
    match t
    case Rich => 0
    case AtReserve => 1
    case Multisig => 2
    case RegularKey => 3
    case Blackholed => 4
  }

  /** Index `i` falls among the wallets that tier `t` takes. */
  ghost predicate InBlock(targets: map<Tier, nat>, i: int, t: Tier)
    requires forall u :: u in targets
  {
    Before(targets, Rank(t)) <= i < Before(targets, Rank(t) + 1)
  }

  lemma FiveBlocks(targets: map<Tier, nat>)
    requires forall t :: t in targets
    ensures Before(targets, 5) == targets[Rich] + targets[AtReserve] + targets[Multisig]
                                  + targets[RegularKey] + targets[Blackholed]
  {
    assert Before(targets, 1) == targets[Rich];
    assert Before(targets, 2) == Before(targets, 1) + targets[AtReserve];
    assert Before(targets, 3) == Before(targets, 2) + targets[Multisig];
    assert Before(targets, 4) == Before(targets, 3) + targets[RegularKey];
  }

  lemma OneBlock(targets: map<Tier, nat>, i: int, t: Tier, u: Tier)
    requires forall v :: v in targets
    requires InBlock(targets, i, t) && InBlock(targets, i, u)
    ensures t == u
  {
    if Rank(t) < Rank(u) {
      BeforeGrows(targets, Rank(t) + 1, Rank(u));
    } else if Rank(u) < Rank(t) {
      BeforeGrows(targets, Rank(u) + 1, Rank(t));
    }
  }

  lemma BlocksCount(targets: map<Tier, nat>, tiers: seq<Tier>)
    requires forall t :: t in targets
    requires |tiers| == Before(targets, 5)
    requires forall i :: 0 <= i < |tiers| ==> InBlock(targets, i, tiers[i])
    ensures forall t :: Count(tiers, t) == targets[t]
    ensures InOrder(tiers)
  {
    forall t
      ensures Count(tiers, t) == targets[t]
    {
      forall i | 0 <= i < |tiers|
        ensures tiers[i] == t <==> InBlock(targets, i, t)
      {
        if InBlock(targets, i, t) {
          OneBlock(targets, i, t, tiers[i]);
        }
      }
      BeforeGrows(targets, Rank(t) + 1, 5);
      CountRun(tiers, t, Before(targets, Rank(t)), Before(targets, Rank(t) + 1));
    }
    forall i, j | 0 <= i < j < |tiers|
      ensures Rank(tiers[i]) <= Rank(tiers[j])
    {
      if Rank(tiers[j]) < Rank(tiers[i]) {
        BeforeGrows(targets, Rank(tiers[j]) + 1, Rank(tiers[i]));
      }
    }
  }
}
