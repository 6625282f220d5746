/** Pooled transactions.

    Only the parts of a transaction that the pool reads are kept. The hash of a
    transaction is its identity: a table keyed by hash is a set of `Tx` values. */
module Transactions {
  datatype Option<+T> = None | Some(value: T)

  type Address = nat

  datatype Tx = Tx(
    sender: Address, nonce: nat, gas: nat, cost: nat,
    feeCap: nat, tipCap: nat, size: nat, salt: nat)

  const TX_SLOT_SIZE := 32 * 1024

  const TWO_256: nat := 0x1_0000_0000_0000_0000 * 0x1_0000_0000_0000_0000
                      * 0x1_0000_0000_0000_0000 * 0x1_0000_0000_0000_0000

  /** Number of pool slots a transaction takes up, one per started 32 KB. */
  function NumSlots(tx: Tx): nat {
    (tx.size + TX_SLOT_SIZE - 1) / TX_SLOT_SIZE
  }

  ghost function SumSlots(txs: set<Tx>): nat {
    if txs == {} then 0 else
      var tx :| tx in txs;
      NumSlots(tx) + SumSlots(txs - {tx})
  }

  /** The sum does not depend on the order in which transactions are picked. */
  lemma {:induction false} SumSlotsRemove(txs: set<Tx>, tx: Tx)
    requires tx in txs
    ensures SumSlots(txs) == NumSlots(tx) + SumSlots(txs - {tx})
  {
    var picked :| picked in txs && SumSlots(txs) == NumSlots(picked) + SumSlots(txs - {picked});
    if picked != tx {
      SumSlotsRemove(txs - {picked}, tx);
      SumSlotsRemove(txs - {tx}, picked);
      assert txs - {picked} - {tx} == txs - {tx} - {picked};
    }
  }

  lemma {:induction false} SumSlotsUnion(a: set<Tx>, b: set<Tx>)
    requires a !! b
    ensures SumSlots(a + b) == SumSlots(a) + SumSlots(b)
  {
    if a == {} {
      assert a + b == b;
    } else {
      var tx :| tx in a;
      SumSlotsRemove(a, tx);
      SumSlotsRemove(a + b, tx);
      assert a + b - {tx} == (a - {tx}) + b;
      SumSlotsUnion(a - {tx}, b);
    }
  }

  lemma SumSlotsMinus(a: set<Tx>, b: set<Tx>)
    requires b <= a
    ensures SumSlots(a - b) == SumSlots(a) - SumSlots(b)
  {
    SumSlotsUnion(a - b, b);
    assert (a - b) + b == a;
  }

  /** The slots of a list of transactions, with multiplicity. */
  function SlotsOf(txs: seq<Tx>): nat {
    if txs == [] then 0 else SlotsOf(txs[..|txs| - 1]) + NumSlots(txs[|txs| - 1])
  }

  ghost predicate Distinct<T>(s: seq<T>) {
    forall i, j :: 0 <= i < j < |s| ==> s[i] != s[j]
  }

  function Elements<T>(s: seq<T>): set<T> {
    set x | x in s
  }

  lemma {:induction false} SlotsOfDistinct(txs: seq<Tx>)
    requires Distinct(txs)
    ensures SlotsOf(txs) == SumSlots(Elements(txs))
  {
    if txs != [] {
      var init, last := txs[..|txs| - 1], txs[|txs| - 1];
      SlotsOfDistinct(init);
      assert txs == init + [last];
      assert Elements(txs) == Elements(init) + {last};
      SumSlotsRemove(Elements(txs), last);
      assert Elements(txs) - {last} == Elements(init);
    }
  }
}
