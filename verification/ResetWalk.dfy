/** How a reset of the pool finds the transactions to put back: it walks from the old and the
    new head down to where their chains part. */
module ResetWalks {
  import opened Transactions
  import opened Headers
  import opened BlockChains
  import opened Arrivals
  import opened Pool
  import opened PricedList
  import opened Admission

  type Blocks = map<Header, seq<Tx>>

  /** A reset is given up, or goes on with some transactions to put back. */
  datatype Walk = GivenUp | PutBack(txs: seq<Tx>)

  const MAX_DEPTH := 64

  /** The transactions of a run of blocks, one block after the other. */
  function TxsIn(blocks: Blocks, branch: seq<Header>): seq<Tx>
    requires forall h :: h in branch ==> h in blocks
  {
    if branch == [] then [] else TxsIn(blocks, branch[..|branch| - 1]) + blocks[branch[|branch| - 1]]
  }

  /** A transaction is in a block of the chain of a header, above a number. */
  ghost predicate Above(blocks: Blocks, h: Header, n: int, tx: Tx) {
    exists m: nat :: n < m <= h.number && InBlock(blocks, h, m, tx)
  }

  ghost predicate InBlock(blocks: Blocks, h: Header, m: nat, tx: Tx) {
    Ancestor(h, m).Of? && Ancestor(h, m).header in blocks && tx in blocks[Ancestor(h, m).header]
  }

  /** A transaction is on the chain of a header. */
  ghost predicate OnChain(blocks: Blocks, h: Header, tx: Tx) {
    Above(blocks, h, -1, tx)
  }

  lemma {:induction false} InTxsIn(blocks: Blocks, branch: seq<Header>, tx: Tx)
    requires forall h :: h in branch ==> h in blocks
    ensures tx in TxsIn(blocks, branch) <==> exists i :: 0 <= i < |branch| && tx in blocks[branch[i]]
    decreases |branch|
  {
    if branch != [] {
      var init, last := branch[..|branch| - 1], branch[|branch| - 1];
      InTxsIn(blocks, init, tx);
      assert forall i :: 0 <= i < |init| ==> branch[i] == init[i];
      assert tx in blocks[last] ==> tx in blocks[branch[|branch| - 1]];
    }
  }

  /** The blocks of a branch have the transactions of the chain above its foot. */
  lemma TxsAbove(blocks: Blocks, h: Header, n: nat, tx: Tx)
    requires Reaches(blocks.Keys, h, n) && h in blocks
    ensures forall b :: b in Branch(h, n) ==> b in blocks
    ensures tx in TxsIn(blocks, Branch(h, n)) <==> Above(blocks, h, n, tx)
  {
    var branch := Branch(h, n);
    BranchAt(blocks.Keys, h, n);
    InTxsIn(blocks, branch, tx);
    if tx in TxsIn(blocks, branch) {
      var i: nat :| i < |branch| && tx in blocks[branch[i]];
      assert InBlock(blocks, h, h.number - i, tx);
    }
    if Above(blocks, h, n, tx) {
      var m: nat :| n < m <= h.number && InBlock(blocks, h, m, tx);
      assert Of(branch[h.number - m]) == Ancestor(h, m);
    }
  }

  /** What is in one list and not in another, in the order of the first. */
  function Minus(a: seq<Tx>, b: seq<Tx>): seq<Tx> {
    if a == [] then [] else
      var rest, last := Minus(a[..|a| - 1], b), a[|a| - 1];
      if last in b then rest else rest + [last]
  }

  lemma {:induction false} InMinus(a: seq<Tx>, b: seq<Tx>, tx: Tx)
    ensures tx in Minus(a, b) <==> tx in a && tx !in b
    decreases |a|
  {
    if a != [] {
      InMinus(a[..|a| - 1], b, tx);
      assert a == a[..|a| - 1] + [a[|a| - 1]];
    }
  }

  method TxDifference(a: seq<Tx>, b: seq<Tx>) returns (keep: seq<Tx>)
    ensures keep == Minus(a, b)
    ensures forall tx :: tx in keep <==> tx in a && tx !in b
  {
    keep := [];
    var remove := Elements(b);
    for i := 0 to |a|
      invariant keep == Minus(a[..i], b)
    {
      assert a[..i + 1][..i] == a[..i];
      if a[i] !in remove {
        keep := keep + [a[i]];
      }
    }
    assert a[..|a|] == a;
    forall tx ensures tx in keep <==> tx in a && tx !in b {
      InMinus(a, b, tx);
    }
  }

  /** Whether the two heads are near enough, and not parent and child, for a walk. */
  predicate Walks(oldHead: Header, newHead: Header) {
    && newHead.parent != Of(oldHead)
    && oldHead.number <= newHead.number + MAX_DEPTH && newHead.number <= oldHead.number + MAX_DEPTH
  }

  /** The highest number at which two chains have the same header. */
  ghost predicate Parts(left: Header, right: Header, n: nat) {
    && n <= left.number && n <= right.number && Ancestor(left, n) == Ancestor(right, n)
    && forall m: nat :: n < m <= left.number && m <= right.number ==> Ancestor(left, m) != Ancestor(right, m)
  }

  /** The transactions of one chain above a number that another does not have above it. */
  ghost predicate AreLost(txs: seq<Tx>, blocks: Blocks, left: Header, right: Header, n: nat) {
    forall tx :: tx in txs <==> Above(blocks, left, n, tx) && !Above(blocks, right, n, tx)
  }

  /** The reset is given up: the old head is gone, though not because the chain was set back, or
      the two chains do not meet before a block is missing. */
  ghost predicate Hopeless(blocks: Blocks, oldHead: Header, newHead: Header) {
    if oldHead !in blocks then newHead.number >= oldHead.number
    else forall n: nat :: !Meets(blocks.Keys, oldHead, newHead, n)
  }

  /** What a reset from one head to another has to put back: the transactions of the old chain
      above the point `n` where the two part, without those that the new one has above it. There
      are none without an old head to walk from. */
  ghost predicate Finds(blocks: Blocks, oldHead: Option<Header>, newHead: Header, walk: Walk, n: nat) {
    if oldHead.None? || !Walks(oldHead.value, newHead) then walk == PutBack([])
    else if Hopeless(blocks, oldHead.value, newHead) then walk == GivenUp
    else if oldHead.value !in blocks then walk == PutBack([])
    else
      walk.PutBack? && Parts(oldHead.value, newHead, n) && AreLost(walk.txs, blocks, oldHead.value, newHead, n)
  }

  /** Walks down from both heads to find the transactions to put back. */
  method FindReinjected(blocks: Blocks, oldHead: Option<Header>, newHead: Header) returns (walk: Walk, ghost n: nat)
    requires oldHead.Some? && Walks(oldHead.value, newHead) && oldHead.value in blocks ==> newHead in blocks
    ensures Finds(blocks, oldHead, newHead, walk, n)
  {
    n := 0;
    if oldHead.None? || !Walks(oldHead.value, newHead) {
      return PutBack([]), n;
    }
    if oldHead.value !in blocks {
      return if newHead.number >= oldHead.value.number then GivenUp else PutBack([]), n;
    }
    var fork := FindFork(blocks.Keys, oldHead.value, newHead);
    if !fork.Forked? {
      return GivenUp, n;
    }
    n := fork.common.number;
    assert forall h :: h in fork.dropped ==> h in Elements(fork.dropped);
    assert forall h :: h in fork.added ==> h in Elements(fork.added);
    var txs := TxDifference(TxsIn(blocks, fork.dropped), TxsIn(blocks, fork.added));
    forall tx ensures tx in txs <==> Above(blocks, oldHead.value, n, tx) && !Above(blocks, newHead, n, tx) {
      TxsAbove(blocks, oldHead.value, n, tx);
      TxsAbove(blocks, newHead, n, tx);
    }
    return PutBack(txs), n;
  }

  /** Where no stored block lacks its parent, a reset with its old head stored is not given up. */
  lemma NeverHopeless(blocks: Blocks, genesis: Header, oldHead: Header, newHead: Header)
    requires Closed(blocks.Keys, genesis) && oldHead in blocks && newHead in blocks
    ensures !Hopeless(blocks, oldHead, newHead)
  {
    ClosedMeets(blocks.Keys, genesis, oldHead, newHead);
  }

  /** No transaction is in two blocks of a chain. */
  ghost predicate Once(blocks: Blocks, h: Header) {
    forall m: nat, k: nat, tx ::
      m <= h.number && k <= h.number && InBlock(blocks, h, m, tx) && InBlock(blocks, h, k, tx) ==> m == k
  }

  /** Where no transaction is twice on the old chain, exactly those are put back that the old
      chain has and the new one has not. */
  lemma LostAltogether(txs: seq<Tx>, blocks: Blocks, genesis: Header, left: Header, right: Header, n: nat)
    requires Closed(blocks.Keys, genesis) && left in blocks && right in blocks && Once(blocks, left)
    requires Parts(left, right, n) && AreLost(txs, blocks, left, right, n)
    ensures forall tx :: tx in txs <==> OnChain(blocks, left, tx) && !OnChain(blocks, right, tx)
  {
    forall m: nat, tx | m <= n ensures InBlock(blocks, left, m, tx) <==> InBlock(blocks, right, m, tx) {
      AncestorOfAncestor(blocks.Keys, genesis, left, n, m);
      AncestorOfAncestor(blocks.Keys, genesis, right, n, m);
    }
    forall tx ensures tx in txs <==> OnChain(blocks, left, tx) && !OnChain(blocks, right, tx) {
      if Above(blocks, left, n, tx) {
        var m: nat :| n < m <= left.number && InBlock(blocks, left, m, tx);
        assert -1 < m;
        assert forall k: nat :: k <= n ==> !InBlock(blocks, right, k, tx);
      }
      assert OnChain(blocks, right, tx) <==>
        Above(blocks, right, n, tx) || exists k: nat :: k <= n && InBlock(blocks, right, k, tx);
    }
  }

  /** The transactions of a walk as they come to the pool. */
  function Arriving(txs: seq<Tx>, checks: Tx -> Checks): (arrivals: seq<Arrival>)
    ensures |arrivals| == |txs| && forall i :: 0 <= i < |txs| ==> arrivals[i] == Arrival(txs[i], checks(txs[i]))
  {
    seq(|txs|, i requires 0 <= i < |txs| => Arrival(txs[i], checks(txs[i])))
  }

  /** Takes the pool from one head to another. It stays as it is if the walk is given up or the
      state of the new head is missing; else it has the new state, and the transactions that the
      walk found have been offered to it one after the other, each with its turn at the heaps. */
  method ResetBetween(pool: TxPool, priced: TxPricedList, blocks: Blocks, oldHead: Option<Header>, newHead: Header,
                      state: Option<ChainState>, maxGas: nat, checks: Tx -> Checks)
      returns (walk: Walk, ghost n: nat, ghost head: Head, ghost stocks: seq<Stock>)
    requires Kept(pool, priced)
    requires oldHead.Some? && Walks(oldHead.value, newHead) && oldHead.value in blocks ==> newHead in blocks
    modifies pool, pool.all, pool.pendingNonces, priced
    ensures Kept(pool, priced)
    ensures Finds(blocks, oldHead, newHead, walk, n)
    ensures walk.GivenUp? || state.None? ==> unchanged(pool) && unchanged(pool.all) && unchanged(priced)
    ensures walk.PutBack? && state.Some? ==>
      && head == Head(state.value, maxGas, head.reinject) && Offers(head.reinject, Arriving(walk.txs, checks))
      && Consulted(old(pool.RulesAt(head)), old(pool.all.Txs()), head.reinject, stocks)
      && stocks[0] == old(StockOf(priced)) && stocks[|head.reinject|] == StockOf(priced)
      && pool.state == state.value && pool.maxGas == maxGas
      && pool.all.Txs() == old(pool.ReadyTxs(Some(Switched(head))))
    ensures walk.PutBack? && state.Some? ==>
      forall a {:trigger Sender(a)} :: Sender(a) ==> pool.V(a) == old(pool.ReadyView(Some(Switched(head)), a))
  {
    walk, n := FindReinjected(blocks, oldHead, newHead);
    head, stocks := Head(pool.state, pool.maxGas, []), [];
    if walk.PutBack? && state.Some? {
      head, stocks := ResetPool(pool, priced, NewHead(state.value, maxGas, Arriving(walk.txs, checks)));
    }
  }
}
