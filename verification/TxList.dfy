/** One sender's list of transactions: a sorted map together with an upper bound
    on the costs and gas limits of its contents. */
module TxLists {
  import opened Transactions
  import opened Lists
  import opened SortedMap

  class TxList {
    const strict: bool
    const txs: TxSortedMap
    var costcap: nat
    var gascap: nat

    ghost predicate Valid()
      reads this, txs
    {
      txs.Valid() && Bounded(txs.items, costcap, gascap)
    }

    constructor (strict: bool)
      ensures Valid() && this.strict == strict && txs.items == map[] && fresh(txs)
    {
      this.strict := strict;
      txs := new TxSortedMap();
      costcap, gascap := 0, 0;
    }

    /** Inserts a transaction unless it fails to outbid the one of its nonce. */
    method Add(tx: Tx, priceBump: nat) returns (inserted: bool, replaced: Option<Tx>)
      requires Valid()
      modifies this, txs
      ensures Valid()
      ensures
        var m := old(txs.items);
        && inserted == (tx.nonce in m ==> Outbids(m[tx.nonce], tx, priceBump))
        && replaced == (if inserted && tx.nonce in m then Some(m[tx.nonce]) else None)
        && txs.items == (if inserted then With(m, tx) else m)
    {
      var prior := txs.Get(tx.nonce);
      if prior.Some? {
        if tx.feeCap <= prior.value.feeCap || tx.tipCap <= prior.value.tipCap {
          return false, None;
        }
        var thresholdFeeCap := (100 + priceBump) * prior.value.feeCap / 100;
        var thresholdTip := (100 + priceBump) * prior.value.tipCap / 100;
        if tx.feeCap < thresholdFeeCap || tx.tipCap < thresholdTip {
          return false, None;
        }
      }
      txs.Put(tx);
      costcap := if costcap < tx.cost then tx.cost else costcap;
      gascap := if gascap < tx.gas then tx.gas else gascap;
      return true, prior;
    }

    /** Removes everything below a nonce. */
    method Forward(threshold: nat) returns (removed: seq<Tx>)
      requires Valid()
      modifies txs
      ensures Valid()
      ensures txs.items == From(old(txs.items), threshold) && IsFlat(removed, Below(old(txs.items), threshold))
    {
      removed := txs.Forward(threshold);
    }

    /** Removes the transactions above the limits, and in a strict list also what
        they leave without a predecessor. When both bounds lie within the limits
        nothing is scanned, and nothing had to be. */
    method Filter(costLimit: nat, gasLimit: nat) returns (removed: seq<Tx>, invalids: seq<Tx>)
      requires Valid()
      modifies this, txs
      ensures Valid()
      ensures
        var m := old(txs.items);
        var payable := KeepPayable(m, costLimit, gasLimit);
        && txs.items == (if strict then PayablePrefix(m, costLimit, gasLimit) else payable)
        && AreAll(removed, Without(m, payable))
        && AreAll(invalids, Without(payable, txs.items))
    {
      removed, invalids := [], [];
      if costcap <= costLimit && gascap <= gasLimit {
        NothingAbove(txs.items, costcap, gascap, costLimit, gasLimit);
        WithoutAll(txs.items);
        return;
      }
      costcap, gascap := costLimit, gasLimit;
      removed := FilterUnpayable(costLimit, gasLimit);
      ghost var payable := txs.items;
      WithoutAll(payable);
      if removed == [] {
        NothingOut(old(txs.items), payable);
        PrefixOfPayable(payable, costLimit, gasLimit);
        return;
      }
      if strict {
        var lowest := LowestNonce(removed);
        PrefixBelow(old(txs.items), costLimit, gasLimit, removed, lowest);
        invalids := txs.FilterRaw(Above(lowest));
      }
      txs.Reheap();
    }

    method FilterUnpayable(costLimit: nat, gasLimit: nat) returns (removed: seq<Tx>)
      requires txs.Valid()
      modifies txs
      ensures txs.Valid() && txs.items == KeepPayable(old(txs.items), costLimit, gasLimit)
      ensures AreAll(removed, Without(old(txs.items), txs.items))
    {
      removed := txs.Filter(TooCostly(costLimit, gasLimit));
      assert txs.items == KeepPayable(old(txs.items), costLimit, gasLimit);
    }

    method Cap(threshold: nat) returns (drops: seq<Tx>)
      requires Valid()
      modifies txs
      ensures Valid() && IsCapped(old(txs.items), threshold, txs.items)
      ensures IsFlat(Backwards(drops), Without(old(txs.items), txs.items))
    {
      drops := txs.Cap(threshold);
    }

    /** Removes a transaction's nonce, and in a strict list everything above it. */
    method Remove(tx: Tx) returns (found: bool, invalids: seq<Tx>)
      requires Valid()
      modifies txs
      ensures Valid() && found == (tx.nonce in old(txs.items))
      ensures
        var m := old(txs.items);
        && txs.items == (if !found then m else if strict then Below(m, tx.nonce) else m - {tx.nonce})
        && AreAll(invalids, if found && strict then From(m, tx.nonce + 1) else map[])
    {
      invalids := [];
      var nonce := tx.nonce;
      found := txs.Remove(nonce);
      if found && strict {
        RemoveAbove(old(txs.items), nonce);
        invalids := CutAbove(nonce);
      }
    }

    method CutAbove(nonce: nat) returns (invalids: seq<Tx>)
      requires Valid()
      modifies txs
      ensures Valid() && txs.items == Rejecting(old(txs.items), Above(nonce))
      ensures AreAll(invalids, Without(old(txs.items), txs.items))
    {
      invalids := txs.Filter(Above(nonce));
    }

    method Ready(start: nat) returns (ready: seq<Tx>)
      requires Valid()
      modifies txs
      ensures Valid() && txs.items == Without(old(txs.items), ReadyRun(old(txs.items), start))
      ensures IsFlat(ready, ReadyRun(old(txs.items), start))
    {
      ready := txs.Ready(start);
    }

    method LastElement() returns (tx: Tx)
      requires Valid() && txs.items != map[]
      modifies txs`cache
      ensures Valid() && IsHighest(txs.items, tx.nonce) && txs.items[tx.nonce] == tx
    {
      tx := txs.LastElement();
    }
  }

  function Above(nonce: nat): Tx -> bool {
    (tx: Tx) => tx.nonce > nonce
  }

  function TooCostly(costLimit: nat, gasLimit: nat): Tx -> bool {
    (tx: Tx) => tx.gas > gasLimit || tx.cost > costLimit
  }

  ghost predicate Bounded(m: Items, costcap: nat, gascap: nat) {
    forall n :: n in m ==> Payable(m[n], costcap, gascap)
  }

  /** Bounds within the limits mean that every transaction is within them. */
  lemma NothingAbove(m: Items, costcap: nat, gascap: nat, costLimit: nat, gasLimit: nat)
    requires Bounded(m, costcap, gascap) && costcap <= costLimit && gascap <= gasLimit
    ensures KeepPayable(m, costLimit, gasLimit) == m == PayablePrefix(m, costLimit, gasLimit)
  {
  }

  lemma PrefixOfPayable(m: Items, costLimit: nat, gasLimit: nat)
    requires KeepPayable(m, costLimit, gasLimit) == m
    ensures PayablePrefix(m, costLimit, gasLimit) == m
  {
  }

  method LowestNonce(txs: seq<Tx>) returns (lowest: nat)
    requires txs != []
    ensures exists tx :: tx in txs && tx.nonce == lowest
    ensures forall tx :: tx in txs ==> lowest <= tx.nonce
  {
    lowest := txs[0].nonce;
    for i := 1 to |txs|
      invariant exists tx :: tx in txs && tx.nonce == lowest
      invariant forall j :: 0 <= j < i ==> lowest <= txs[j].nonce
    {
      if lowest > txs[i].nonce {
        lowest := txs[i].nonce;
      }
    }
  }

  /** Cutting the payable transactions above the lowest unpayable nonce leaves
      the front part in which everything can be paid for. */
  lemma PrefixBelow(m: Items, costLimit: nat, gasLimit: nat, removed: seq<Tx>, lowest: nat)
    requires Keyed(m)
    requires AreAll(removed, Without(m, KeepPayable(m, costLimit, gasLimit)))
    requires exists tx :: tx in removed && tx.nonce == lowest
    requires forall tx :: tx in removed ==> lowest <= tx.nonce
    ensures Rejecting(KeepPayable(m, costLimit, gasLimit), Above(lowest)) == PayablePrefix(m, costLimit, gasLimit)
  {
  }

  lemma RemoveAbove(m: Items, nonce: nat)
    requires Keyed(m) && nonce in m
    ensures Rejecting(m - {nonce}, Above(nonce)) == Below(m, nonce)
    ensures Without(m - {nonce}, Below(m, nonce)) == From(m, nonce + 1)
  {
  }
}
