/**
 Largest-first coin selection and the unsigned transaction built on it. The fee
 for a size is a given function: the floating-point product is not modelled.
 */
module CoinSelection {
  import opened Numerals
  import Seqs

  datatype Utxo = Utxo(txid: string, vout: nat, amount: u64)

  datatype Selection =
    | Selected(coins: seq<Utxo>, total: u64)
    | Insufficient
    | Overflow  // the running total leaves u64, where the amount type panics

  function Sum(coins: seq<Utxo>): nat {
    if coins == [] then 0 else Sum(coins[..|coins| - 1]) + coins[|coins| - 1].amount
  }

  // The stable descending sort

  /** Insert before the first coin that is no larger, hence before its equals. */
  function Insert(u: Utxo, coins: seq<Utxo>): seq<Utxo> {
    if coins == [] || u.amount >= coins[0].amount then [u] + coins else [coins[0]] + Insert(u, coins[1..])
  }

  /** The coins by descending amount; coins of one amount keep their order. */
  function Ranked(coins: seq<Utxo>): seq<Utxo> {
    if coins == [] then [] else Insert(coins[0], Ranked(coins[1..]))
  }

  predicate Descending(coins: seq<Utxo>) {
    forall i, j | 0 <= i < j < |coins| :: coins[i].amount >= coins[j].amount
  }

  function OfAmount(coins: seq<Utxo>, amount: u64): seq<Utxo> {
    if coins == [] then []
    else (if coins[0].amount == amount then [coins[0]] else []) + OfAmount(coins[1..], amount)
  }

  lemma {:induction false} InsertKeepsCoins(u: Utxo, coins: seq<Utxo>)
    ensures multiset(Insert(u, coins)) == multiset(coins) + multiset{u}
  {
    if coins != [] && u.amount < coins[0].amount {
      InsertKeepsCoins(u, coins[1..]);
      assert coins == [coins[0]] + coins[1..];
    }
  }

  lemma {:induction false} InsertDescending(u: Utxo, coins: seq<Utxo>)
    requires Descending(coins)
    ensures Descending(Insert(u, coins))
  {
    if coins != [] && u.amount < coins[0].amount {
      var rest := Insert(u, coins[1..]);
      InsertDescending(u, coins[1..]);
      InsertKeepsCoins(u, coins[1..]);
      forall k | 0 <= k < |rest| ensures coins[0].amount >= rest[k].amount {
        assert rest[k] in multiset(coins[1..]) + multiset{u};
        assert rest[k] == u || rest[k] in coins[1..];
      }
    }
  }

  lemma {:induction false} InsertKeepsOrder(u: Utxo, coins: seq<Utxo>, amount: u64)
    ensures OfAmount(Insert(u, coins), amount) == OfAmount([u] + coins, amount)
  {
    assert ([u] + coins)[1..] == coins;
    if coins != [] && u.amount < coins[0].amount {
      InsertKeepsOrder(u, coins[1..], amount);
      assert ([u] + coins[1..])[1..] == coins[1..] && Insert(u, coins)[1..] == Insert(u, coins[1..]);
    }
  }

  lemma {:induction false} RankedIsStableSort(coins: seq<Utxo>)
    ensures Descending(Ranked(coins)) && multiset(Ranked(coins)) == multiset(coins)
    ensures forall amount: u64 :: OfAmount(Ranked(coins), amount) == OfAmount(coins, amount)
  {
    if coins != [] {
      var ranked := Ranked(coins[1..]);
      RankedIsStableSort(coins[1..]);
      InsertKeepsCoins(coins[0], ranked);
      InsertDescending(coins[0], ranked);
      assert coins == [coins[0]] + coins[1..] && ([coins[0]] + ranked)[1..] == ranked;
      forall amount: u64 ensures OfAmount(Ranked(coins), amount) == OfAmount(coins, amount) {
        InsertKeepsOrder(coins[0], ranked, amount);
      }
    }
  }

  // Sums

  lemma {:induction false} SumSplits(front: seq<Utxo>, back: seq<Utxo>)
    ensures Sum(front + back) == Sum(front) + Sum(back)
  {
    if back == [] {
      assert front + back == front;
    } else {
      var n := |back| - 1;
      assert (front + back)[..|front| + n] == front + back[..n];
      SumSplits(front, back[..n]);
    }
  }

  lemma SumWithout(front: seq<Utxo>, u: Utxo, back: seq<Utxo>)
    ensures Sum(front + ([u] + back)) == Sum(front + back) + u.amount
  {
    SumSplits(front, [u] + back);
    SumSplits([u], back);
    SumSplits(front, back);
    assert [u][..0] == [];
    assert Sum([u]) == Sum([u][..0]) + u.amount;
  }

  /** Fewer coins are worth no more. */
  lemma {:induction false} SumMonotone(picks: seq<Utxo>, coins: seq<Utxo>)
    requires multiset(picks) <= multiset(coins)
    ensures Sum(picks) <= Sum(coins)
  {
    if picks != [] {
      var n := |picks| - 1;
      assert picks == picks[..n] + [picks[n]];
      assert picks[n] in multiset(picks);
      assert picks[n] in multiset(coins);
      var front, back := Seqs.SplitAt(coins, picks[n]);
      SumMonotone(picks[..n], front + back);
      SumWithout(front, picks[n], back);
    }
  }

  lemma TakeOne<T>(a: multiset<T>, b: multiset<T>, x: T)
    requires a <= b + multiset{x}
    ensures a <= b || (x in a && a - multiset{x} <= b)
  {
  }

  /** Picks that need the last coin, without it. */
  lemma DropLast(picks: seq<Utxo>, coins: seq<Utxo>, last: Utxo) returns (rest: seq<Utxo>)
    requires multiset(picks) <= multiset(coins + [last]) && !(multiset(picks) <= multiset(coins))
    ensures multiset(rest) <= multiset(coins) && |rest| == |picks| - 1 && Sum(picks) == Sum(rest) + last.amount
  {
    TakeOne(multiset(picks), multiset(coins), last);
    var front, back := Seqs.SplitAt(picks, last);
    rest := front + back;
    SumWithout(front, last, back);
  }

  lemma SumStep(coins: seq<Utxo>, k: nat)
    requires k < |coins|
    ensures Sum(coins[..k + 1]) == Sum(coins[..k]) + coins[k].amount
  {
    assert coins[..k + 1][..k] == coins[..k];
  }

  /** The k largest coins are worth at least as much as any k or fewer coins. */
  lemma {:induction false} TopCoinsDominate(picks: seq<Utxo>, ranked: seq<Utxo>, k: nat)
    requires Descending(ranked) && multiset(picks) <= multiset(ranked)
    requires |picks| <= k <= |ranked|
    ensures Sum(picks) <= Sum(ranked[..k])
    decreases |ranked|, 1
  {
    if k == |ranked| {
      assert ranked[..k] == ranked;
      SumMonotone(picks, ranked);
    } else {
      var init, last := ranked[..|ranked| - 1], ranked[|ranked| - 1];
      assert ranked == init + [last];
      if multiset(picks) <= multiset(init) {
        TopCoinsDominate(picks, init, k);
        assert init[..k] == ranked[..k];
      } else {
        TopCoinsWithLast(picks, init, last, k);
      }
    }
  }

  /** Picks that need the smallest coin lose at most by trading it for the k-th largest. */
  lemma {:induction false} TopCoinsWithLast(picks: seq<Utxo>, init: seq<Utxo>, last: Utxo, k: nat)
    requires Descending(init + [last]) && multiset(picks) <= multiset(init + [last]) && !(multiset(picks) <= multiset(init))
    requires |picks| <= k <= |init|
    ensures Sum(picks) <= Sum((init + [last])[..k])
    decreases |init| + 1, 0
  {
    var ranked := init + [last];
    var rest := DropLast(picks, init, last);
    assert Descending(init) by { assert forall i | 0 <= i < |init| :: init[i] == ranked[i]; }
    TopCoinsDominate(rest, init, k - 1);
    assert init[..k - 1] == ranked[..k - 1];
    SumStep(ranked, k - 1);
    assert ranked[k - 1].amount >= ranked[|init|].amount;
  }

  /** Some of the coins, worth the target. */
  ghost predicate Pays(coins: seq<Utxo>, target: nat, picks: seq<Utxo>) {
    multiset(picks) <= multiset(coins) && Sum(picks) >= target
  }

  /** The least number of coins that can reach the target. */
  ghost predicate LeastCount(coins: seq<Utxo>, target: nat, count: nat) {
    && (exists picks: seq<Utxo> :: Pays(coins, target, picks) && |picks| == count)
    && (forall picks: seq<Utxo> | Pays(coins, target, picks) :: |picks| >= count)
  }

  lemma SameSize(coins: seq<Utxo>)
    ensures |Ranked(coins)| == |coins| && Sum(Ranked(coins)) == Sum(coins)
  {
    RankedIsStableSort(coins);
    assert |multiset(Ranked(coins))| == |multiset(coins)|;
    SumMonotone(coins, Ranked(coins));
    SumMonotone(Ranked(coins), coins);
  }

  lemma PrefixContained<T>(xs: seq<T>, n: nat)
    requires n <= |xs|
    ensures multiset(xs[..n]) <= multiset(xs)
  {
    assert xs == xs[..n] + xs[n..];
  }

  lemma FewerFallShort(picks: seq<Utxo>, coins: seq<Utxo>, k: nat)
    requires multiset(picks) <= multiset(coins) && |picks| <= k <= |Ranked(coins)|
    ensures Sum(picks) <= Sum(Ranked(coins)[..k])
  {
    RankedIsStableSort(coins);
    TopCoinsDominate(picks, Ranked(coins), k);
  }

  /** The shortest prefix of the ranked coins that pays has the least count. */
  lemma PrefixIsLeast(coins: seq<Utxo>, n: nat, target: nat)
    requires Enough(coins, target, n)
    ensures Pays(coins, target, Ranked(coins)[..n])
    ensures Sum(coins) >= target && LeastCount(coins, target, n)
  {
    var ranked := Ranked(coins);
    RankedIsStableSort(coins);
    PrefixContained(ranked, n);
    SumMonotone(ranked[..n], coins);
    var prefix := ranked[..n];
    assert Pays(coins, target, prefix) && |prefix| == n;
    forall picks: seq<Utxo> | Pays(coins, target, picks) ensures |picks| >= n {
      if |picks| < n { FewerFallShort(picks, coins, n - 1); }
    }
  }

  lemma LeastCountUnique(coins: seq<Utxo>, target: nat, m: nat, n: nat)
    requires LeastCount(coins, target, m) && LeastCount(coins, target, n)
    ensures m == n
  {
  }

  /** Nothing pays when all coins together fall short. */
  lemma NoLeastCount(coins: seq<Utxo>, target: nat, n: nat)
    requires LeastCount(coins, target, n)
    ensures Sum(coins) >= target
  {
    var picks: seq<Utxo> :| Pays(coins, target, picks) && |picks| == n;
    SumMonotone(picks, coins);
  }

  /** The largest coins that are just enough are worth more than a u64 holds. */
  ghost predicate Bursts(coins: seq<Utxo>, target: nat) {
    exists k :: 0 <= k <= |Ranked(coins)| && LeastCount(coins, target, k) && Sum(Ranked(coins)[..k]) > U64_MAX
  }

  lemma NoBurst(coins: seq<Utxo>, target: nat, n: nat)
    requires n <= |Ranked(coins)| && LeastCount(coins, target, n) && Sum(Ranked(coins)[..n]) <= U64_MAX
    ensures !Bursts(coins, target)
  {
    if k :| 0 <= k <= |Ranked(coins)| && LeastCount(coins, target, k) && Sum(Ranked(coins)[..k]) > U64_MAX {
      LeastCountUnique(coins, target, k, n);
    }
  }

  lemma NoBurstWhenShort(coins: seq<Utxo>, target: nat)
    requires Sum(coins) < target
    ensures !Bursts(coins, target)
  {
    if k :| 0 <= k <= |Ranked(coins)| && LeastCount(coins, target, k) && Sum(Ranked(coins)[..k]) > U64_MAX {
      NoLeastCount(coins, target, k);
    }
  }

  /** The k largest coins reach the target and one fewer does not: what selection takes. */
  ghost predicate Enough(coins: seq<Utxo>, target: nat, k: nat) {
    && k <= |Ranked(coins)| && Sum(Ranked(coins)[..k]) >= target
    && (k > 0 ==> Sum(Ranked(coins)[..k - 1]) < target)
  }

  /**
   `select_coins`. It fails for lack of funds exactly when all coins together fall short.
   Otherwise the choice is among the given coins, reaches the target, and no choice of fewer
   coins does; it overflows only when the least number of largest coins is worth more than a u64.
   */
  method SelectCoins(utxos: seq<Utxo>, target: u64) returns (s: Selection)
    ensures s.Insufficient? <==> Sum(utxos) < target
    ensures s.Selected? ==> s.coins <= Ranked(utxos) && Pays(utxos, target, s.coins) && s.total == Sum(s.coins)
    ensures s.Selected? ==> LeastCount(utxos, target, |s.coins|) && Enough(utxos, target, |s.coins|)
    ensures s.Overflow? <==> Bursts(utxos, target)
  {
    var ranked := Ranked(utxos);
    SameSize(utxos);
    var total: u64, n := 0, 0;
    while n < |ranked| && total < target
      invariant 0 <= n <= |ranked| && total == Sum(ranked[..n])
      invariant n > 0 ==> Sum(ranked[..n - 1]) < target
    {
      assert ranked[..n + 1][..n] == ranked[..n];
      if total + ranked[n].amount > U64_MAX {
        PrefixIsLeast(utxos, n + 1, target);
        return Overflow;
      }
      total := total + ranked[n].amount;
      n := n + 1;
    }
    if total < target {
      assert ranked[..|ranked|] == ranked;
      NoBurstWhenShort(utxos, target);
      return Insufficient;
    }
    PrefixIsLeast(utxos, n, target);
    NoBurst(utxos, target, n);
    return Selected(ranked[..n], total);
  }

  // The unsigned transaction

  const DUST: nat := 546

  datatype Transaction = Transaction(inputs: seq<Utxo>, outputs: seq<u64>)

  datatype Built = Built(tx: Transaction) | Failed(why: Selection)

  function OutputSum(outputs: seq<u64>): nat {
    if outputs == [] then 0 else OutputSum(outputs[..|outputs| - 1]) + outputs[|outputs| - 1]
  }

  /** `estimate_tx_vsize` */
  function VirtualSize(tx: Transaction, inputs: nat): nat {
    10 + 58 * inputs + 43 * |tx.outputs|
  }

  /** What the inputs are worth beyond the outputs. */
  function ImpliedFee(tx: Transaction): int {
    Sum(tx.inputs) - OutputSum(tx.outputs)
  }

  /** The fee the estimate asks for: always sized with two outputs. */
  function EstimatedFee(inputs: nat, feeOf: nat -> u64): u64 {
    feeOf(58 * inputs + 96)
  }

  /** Outputs and implied fee of a payment with this estimate. */
  ghost predicate PaysWithChange(tx: Transaction, amount: nat, fee: nat) {
    && 1 <= |tx.outputs| <= 2 && tx.outputs[0] == amount
    && ImpliedFee(tx) >= 0
    && (|tx.outputs| == 2 <==> Sum(tx.inputs) > amount + fee + DUST)
    && (|tx.outputs| == 2 ==> tx.outputs[1] > DUST && ImpliedFee(tx) == fee)
    && (|tx.outputs| == 1 ==> ImpliedFee(tx) <= fee + DUST)
    && (ImpliedFee(tx) < fee <==> Sum(tx.inputs) < amount + fee)
  }

  lemma PlainPayment(tx: Transaction, amount: u64, fee: nat)
    requires tx.outputs == [amount] && amount <= Sum(tx.inputs) <= amount + fee + DUST
    ensures PaysWithChange(tx, amount, fee)
  {
    assert [amount][..0] == [];
    assert OutputSum([amount]) == OutputSum([amount][..0]) + amount;
  }

  lemma ChangePayment(tx: Transaction, amount: u64, change: u64, fee: nat)
    requires tx.outputs == [amount, change] && change > DUST && Sum(tx.inputs) == amount + change + fee
    ensures PaysWithChange(tx, amount, fee)
  {
    assert [amount, change][..1] == [amount] && [amount][..0] == [];
    assert OutputSum([amount]) == OutputSum([amount][..0]) + amount;
  }

  /** Outputs are pushed, the placeholder popped again, and change pushed when it is no dust. */
  method PayFrom(coins: seq<Utxo>, total: u64, amount: u64, feeOf: nat -> u64) returns (tx: Transaction)
    requires amount <= total == Sum(coins)
    ensures tx.inputs == coins && PaysWithChange(tx, amount, EstimatedFee(|coins|, feeOf))
  {
    tx := Transaction(coins, [amount]);
    tx := tx.(outputs := tx.outputs + [0]);
    var fee := feeOf(VirtualSize(tx, |coins|));
    tx := tx.(outputs := tx.outputs[..|tx.outputs| - 1]);
    assert tx.outputs == [amount];
    if total - amount >= fee && total - amount - fee > DUST {
      var change: u64 := total - amount - fee;
      tx := tx.(outputs := tx.outputs + [change]);
      ChangePayment(tx, amount, change, fee);
    } else {
      PlainPayment(tx, amount, fee);
    }
  }

  /** The largest coins that are enough for the amount are not enough for the fee of spending them. */
  ghost predicate Underpays(coins: seq<Utxo>, amount: nat, feeOf: nat -> u64) {
    exists k: nat :: Enough(coins, amount, k) && Sum(Ranked(coins)[..k]) < amount + EstimatedFee(k, feeOf)
  }

  /** The largest coins that are enough for the amount leave more than dust after the fee. */
  ghost predicate LeavesChange(coins: seq<Utxo>, amount: nat, feeOf: nat -> u64) {
    exists k: nat :: Enough(coins, amount, k) && Sum(Ranked(coins)[..k]) > amount + EstimatedFee(k, feeOf) + DUST
  }

  lemma EnoughIsUnique(coins: seq<Utxo>, target: nat, j: nat, k: nat)
    requires Enough(coins, target, j) && Enough(coins, target, k)
    ensures j == k
  {
    PrefixIsLeast(coins, j, target);
    PrefixIsLeast(coins, k, target);
    LeastCountUnique(coins, target, j, k);
  }

  /** Both conditions are decided by the selected coins. */
  lemma DecidedBySelection(coins: seq<Utxo>, amount: nat, feeOf: nat -> u64, k: nat)
    requires Enough(coins, amount, k)
    ensures Underpays(coins, amount, feeOf) <==> Sum(Ranked(coins)[..k]) < amount + EstimatedFee(k, feeOf)
    ensures LeavesChange(coins, amount, feeOf) <==> Sum(Ranked(coins)[..k]) > amount + EstimatedFee(k, feeOf) + DUST
  {
    forall j: nat | Enough(coins, amount, j) ensures j == k {
      EnoughIsUnique(coins, amount, j, k);
    }
  }

  /** Whether a payment from the selected coins has change, and whether it underpays. */
  lemma FeeDecided(coins: seq<Utxo>, amount: nat, feeOf: nat -> u64, tx: Transaction)
    requires tx.inputs <= Ranked(coins) && Enough(coins, amount, |tx.inputs|)
    requires PaysWithChange(tx, amount, EstimatedFee(|tx.inputs|, feeOf))
    ensures |tx.outputs| == 2 <==> LeavesChange(coins, amount, feeOf)
    ensures ImpliedFee(tx) < EstimatedFee(|tx.inputs|, feeOf) <==> Underpays(coins, amount, feeOf)
  {
    var k := |tx.inputs|;
    assert tx.inputs == Ranked(coins)[..k];
    DecidedBySelection(coins, amount, feeOf, k);
  }

  /**
   `create_transaction`. The inputs are the fewest largest coins that reach the amount. The
   recipient comes first and gets the amount. Change is paid exactly when those coins leave
   more than the dust limit after the fee; then the implied fee is the estimate. Otherwise it
   is at most the estimate plus the dust limit. It falls below the estimate exactly when those
   coins do not also cover their fee, which selection ignores.
   */
  method CreateTransaction(utxos: seq<Utxo>, amount: u64, feeOf: nat -> u64) returns (b: Built)
    ensures b.Failed? ==> !b.why.Selected?
    ensures b.Failed? && b.why.Insufficient? <==> Sum(utxos) < amount
    ensures b.Failed? && b.why.Overflow? <==> Bursts(utxos, amount)
    ensures b.Built? ==> Pays(utxos, amount, b.tx.inputs) && LeastCount(utxos, amount, |b.tx.inputs|)
    ensures b.Built? ==> b.tx.inputs <= Ranked(utxos) && Enough(utxos, amount, |b.tx.inputs|)
    ensures b.Built? ==> PaysWithChange(b.tx, amount, EstimatedFee(|b.tx.inputs|, feeOf))
    ensures b.Built? ==> (|b.tx.outputs| == 2 <==> LeavesChange(utxos, amount, feeOf))
    ensures b.Built? ==> (ImpliedFee(b.tx) < EstimatedFee(|b.tx.inputs|, feeOf) <==> Underpays(utxos, amount, feeOf))
  {
    var s := SelectCoins(utxos, amount);
    if !s.Selected? {
      return Failed(s);
    }
    var tx := PayFrom(s.coins, s.total, amount, feeOf);
    FeeDecided(utxos, amount, feeOf, tx);
    return Built(tx);
  }

  /** One unit of fee per virtual byte. */
  function OneToOne(size: nat): u64 {
    if size <= U64_MAX then size else U64_MAX
  }

  const WALLET := [Utxo("exact", 0, 1000), Utxo("spare", 0, 500)]

  /**
   A payment below its estimate although the wallet could afford it: the first coin is
   exactly the amount, so the spare one stays unselected and no fee is left at all.
   */
  lemma ExactCoinPaysNoFee(tx: Transaction)
    ensures Underpays(WALLET, 1000, OneToOne) && Sum(WALLET) >= 1000 + EstimatedFee(2, OneToOne)
    ensures PaysWithChange(Transaction(WALLET[..1], [1000]), 1000, EstimatedFee(1, OneToOne))
    ensures tx.inputs == WALLET[..1] && PaysWithChange(tx, 1000, EstimatedFee(1, OneToOne)) ==> ImpliedFee(tx) == 0
  {
    var first, spare := WALLET[..1], WALLET[1..];
    assert spare[1..] == [] && Ranked(spare) == spare;
    assert Ranked(WALLET) == WALLET;
    assert first[..0] == [] && WALLET[..0] == [] && Sum(first) == 1000;
    assert WALLET[..2] == WALLET && Sum(WALLET) == 1500;
    assert Enough(WALLET, 1000, 1);
    PlainPayment(Transaction(first, [1000]), 1000, EstimatedFee(1, OneToOne));
    if tx.inputs == first && PaysWithChange(tx, 1000, EstimatedFee(1, OneToOne)) {
      assert tx.outputs == [1000] && tx.outputs[..0] == [];
    }
  }
}
