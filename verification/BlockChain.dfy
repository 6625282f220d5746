/** The block chain: stored blocks, the canonical number index, the lookup of
    transactions by the number of their block, and the head markers. */
module BlockChains {
  import opened Headers
  import opened HeaderChains
  import opened Transactions

  type TxHash = nat

  /** The headers from `h` down to just above a number, newest first. */
  function Branch(h: Header, n: nat): seq<Header> {
    if h.number <= n then [] else [h] + if h.parent.Of? then Branch(h.parent.header, n) else []
  }

  /** The transactions of some blocks. */
  function TxsOf(blocks: map<Header, set<TxHash>>, hs: seq<Header>): set<TxHash> {
    set h, t | h in hs && h in blocks && t in blocks[h] :: t
  }

  /** The ancestors of a header above a number, newest first. */
  ghost predicate LeadsTo(hs: seq<Header>, h: Header, n: nat) {
    n <= h.number && |hs| == h.number - n && forall i :: 0 <= i < |hs| ==> Of(hs[i]) == Ancestor(h, h.number - i)
  }

  datatype Fork = Forked(common: Header, dropped: seq<Header>, added: seq<Header>) | InvalidOld | InvalidNew

  /** Where two chains part: the highest number at which they have the same header, and
      what each of them has above it. */
  ghost predicate IsFork(left: Header, right: Header, fork: Fork) {
    && fork.Forked?
    && var n := fork.common.number;
    && n <= left.number && n <= right.number
    && Ancestor(left, n) == Ancestor(right, n) == Of(fork.common)
    && fork.dropped == Branch(left, n) && fork.added == Branch(right, n)
    && forall m: nat :: n < m <= left.number && m <= right.number ==> Ancestor(left, m) != Ancestor(right, m)
  }

  predicate HasParent(blocks: set<Header>, h: Header) {
    h.number > 0 && h.parent.Of? && h.parent.header in blocks && h.parent.header.number == h.number - 1
  }

  /** The ancestor at a number has its parent stored. */
  ghost predicate Steps(blocks: set<Header>, h: Header, m: nat) {
    Ancestor(h, m).Of? && HasParent(blocks, Ancestor(h, m).header)
  }

  /** Every block down to a number is stored, each one number above its parent. */
  ghost predicate Reaches(blocks: set<Header>, h: Header, n: nat) {
    n <= h.number && forall m: nat :: n < m <= h.number ==> Steps(blocks, h, m)
  }

  /** Two chains have the same block at a number, and all blocks down to it are stored. */
  ghost predicate Meets(blocks: set<Header>, left: Header, right: Header, n: nat) {
    Reaches(blocks, left, n) && Reaches(blocks, right, n) && Ancestor(left, n) == Ancestor(right, n)
  }

  lemma ReachesParent(blocks: set<Header>, h: Header, n: nat)
    requires Reaches(blocks, h, n) && n < h.number
    ensures HasParent(blocks, h) && Reaches(blocks, h.parent.header, n)
  {
    assert Steps(blocks, h, h.number);
    forall m: nat | n < m <= h.number - 1 ensures Steps(blocks, h.parent.header, m) {
      assert Steps(blocks, h, m);
    }
  }

  lemma {:induction false} BranchAt(blocks: set<Header>, h: Header, n: nat)
    requires Reaches(blocks, h, n) && h in blocks
    ensures |Branch(h, n)| == h.number - n
    ensures forall i :: 0 <= i < |Branch(h, n)| ==>
      Of(Branch(h, n)[i]) == Ancestor(h, h.number - i) && Branch(h, n)[i] in blocks
    decreases h
  {
    if n < h.number {
      ReachesParent(blocks, h, n);
      BranchAt(blocks, h.parent.header, n);
      forall i | 0 < i < |Branch(h, n)|
        ensures Of(Branch(h, n)[i]) == Ancestor(h, h.number - i) && Branch(h, n)[i] in blocks {
        assert Branch(h, n)[i] == Branch(h.parent.header, n)[i - 1];
      }
    }
  }

  /** Where no stored block lacks its parent, every chain can be walked down to the first. */
  lemma ClosedReaches(blocks: set<Header>, genesis: Header, h: Header, n: nat)
    requires Closed(blocks, genesis) && h in blocks && n <= h.number
    ensures Reaches(blocks, h, n)
  {
    forall m: nat | n < m <= h.number ensures Steps(blocks, h, m) {
      AncestorStored(blocks, genesis, h, m);
      assert Rooted(blocks, genesis, Ancestor(h, m).header);
    }
  }

  lemma ClosedMeets(blocks: set<Header>, genesis: Header, left: Header, right: Header)
    requires Closed(blocks, genesis) && left in blocks && right in blocks
    ensures Meets(blocks, left, right, 0)
  {
    ClosedReaches(blocks, genesis, left, 0);
    ClosedReaches(blocks, genesis, right, 0);
    FirstIsGenesis(blocks, genesis, left);
    FirstIsGenesis(blocks, genesis, right);
  }

  lemma FirstIsGenesis(blocks: set<Header>, genesis: Header, h: Header)
    requires Closed(blocks, genesis) && h in blocks
    ensures Ancestor(h, 0) == Of(genesis)
  {
    AncestorStored(blocks, genesis, h, 0);
    assert Rooted(blocks, genesis, Ancestor(h, 0).header);
  }

  /** Walking down from `start`, `chain` was passed and `h` is next. */
  ghost predicate Along(start: Header, chain: seq<Header>, h: Header) {
    && h.number <= start.number
    && forall n: nat :: n <= h.number ==> Passed(start, chain, h, n)
  }

  ghost predicate Passed(start: Header, chain: seq<Header>, h: Header, n: nat) {
    Branch(start, n) == chain + Branch(h, n) && Ancestor(start, n) == Ancestor(h, n)
  }

  lemma AlongStart(h: Header)
    ensures Along(h, [], h)
  {
  }

  lemma AlongNext(blocks: set<Header>, start: Header, chain: seq<Header>, h: Header)
    requires Along(start, chain, h) && HasParent(blocks, h) && Reaches(blocks, start, h.number)
    ensures Along(start, chain + [h], h.parent.header) && Reaches(blocks, start, h.parent.header.number)
  {
    assert Passed(start, chain, h, h.number);
    assert Steps(blocks, start, h.number);
    forall n: nat | n <= h.number - 1 ensures Passed(start, chain + [h], h.parent.header, n) {
      assert Passed(start, chain, h, n);
      assert chain + ([h] + Branch(h.parent.header, n)) == chain + [h] + Branch(h.parent.header, n);
    }
  }

  /** Walks down to a number, as far as parents are stored. */
  method StepDown(blocks: set<Header>, start: Header, number: nat) returns (chain: seq<Header>, h: Header)
    requires number <= start.number && start in blocks
    ensures Along(start, chain, h) && number <= h.number && h in blocks && Elements(chain) <= blocks
    ensures Reaches(blocks, start, h.number)
    ensures number < h.number ==> !HasParent(blocks, h)
  {
    chain, h := [], start;
    AlongStart(start);
    while h.number != number && HasParent(blocks, h)
      invariant number <= h.number && Along(start, chain, h) && h in blocks && Elements(chain) <= blocks
      invariant Reaches(blocks, start, h.number)
      decreases h.number
    {
      AlongNext(blocks, start, chain, h);
      chain, h := chain + [h], h.parent.header;
    }
  }

  /** An ancestor whose parent is not stored. */
  ghost predicate BrokenAt(blocks: set<Header>, start: Header, n: nat) {
    Ancestor(start, n).Of? && !HasParent(blocks, Ancestor(start, n).header)
  }

  /** A walk stops at a block without a stored parent. */
  lemma Stuck(blocks: set<Header>, start: Header, chain: seq<Header>, h: Header)
    requires Along(start, chain, h) && !HasParent(blocks, h)
    ensures BrokenAt(blocks, start, h.number)
    ensures forall n: nat :: Reaches(blocks, start, n) ==> h.number <= n
  {
    assert Passed(start, chain, h, h.number);
    assert !Steps(blocks, start, h.number);
  }

  /** Finds the common ancestor of two chains, walking the longer one down first. There is one
      to be found exactly if the chains meet before a block is missing. */
  method FindFork(blocks: set<Header>, left: Header, right: Header) returns (fork: Fork)
    requires left in blocks && right in blocks
    ensures fork.Forked? ==>
      && IsFork(left, right, fork) && Elements(fork.dropped) <= blocks && Elements(fork.added) <= blocks
      && Meets(blocks, left, right, fork.common.number)
    ensures fork.Forked? <==> exists n: nat :: Meets(blocks, left, right, n)
    ensures fork.InvalidOld? ==> exists n: nat :: n <= left.number && BrokenAt(blocks, left, n)
    ensures fork.InvalidNew? ==> exists n: nat :: n <= right.number && BrokenAt(blocks, right, n)
  {
    var dropped, l := StepDown(blocks, left, if left.number > right.number then right.number else left.number);
    if l.number > right.number {
      Stuck(blocks, left, dropped, l);
      return InvalidOld;
    }
    var added, r := StepDown(blocks, right, l.number);
    if r.number > l.number {
      Stuck(blocks, right, added, r);
      return InvalidNew;
    }
    while l != r
      invariant l.number == r.number && l in blocks && r in blocks
      invariant Elements(dropped) <= blocks && Elements(added) <= blocks
      invariant Along(left, dropped, l) && Along(right, added, r)
      invariant Reaches(blocks, left, l.number) && Reaches(blocks, right, l.number)
      invariant forall m: nat :: l.number < m <= left.number && m <= right.number ==>
        Ancestor(left, m) != Ancestor(right, m)
      decreases l.number
    {
      assert Passed(left, dropped, l, l.number) && Passed(right, added, r, l.number);
      if !HasParent(blocks, l) {
        Stuck(blocks, left, dropped, l);
        return InvalidOld;
      }
      if !HasParent(blocks, r) {
        Stuck(blocks, right, added, r);
        return InvalidNew;
      }
      AlongNext(blocks, left, dropped, l);
      AlongNext(blocks, right, added, r);
      dropped, added := dropped + [l], added + [r];
      l, r := l.parent.header, r.parent.header;
    }
    assert Passed(left, dropped, l, l.number) && Passed(right, added, l, l.number);
    assert Meets(blocks, left, right, l.number);
    return Forked(l, dropped, added);
  }

  /** The transactions of the ancestor of a header at a number. */
  function TxsAt(blocks: map<Header, set<TxHash>>, h: Header, n: nat): set<TxHash> {
    if Ancestor(h, n).Of? && Ancestor(h, n).header in blocks then blocks[Ancestor(h, n).header] else {}
  }

  /** The lookup has exactly the transactions of a header's chain, each with its number. */
  ghost predicate Looked(blocks: map<Header, set<TxHash>>, lookup: map<TxHash, nat>, head: Header) {
    && (forall t, n: nat :: n <= head.number && t in TxsAt(blocks, head, n) ==> t in lookup && lookup[t] == n)
    && (forall t :: t in lookup ==> lookup[t] <= head.number && t in TxsAt(blocks, head, lookup[t]))
  }

  /** No transaction is in two blocks of a header's chain. */
  predicate NoRepeats(blocks: map<Header, set<TxHash>>, head: Header) {
    forall m: nat, n: nat {:trigger Two(m, n)} | m <= head.number && n <= head.number && Two(m, n) && m != n ::
      TxsAt(blocks, head, m) !! TxsAt(blocks, head, n)
  }

  /** Any two numbers; brings a quantifier to bear on them. */
  predicate Two(m: nat, n: nat) {
    true
  }

  /** The transactions a header's chain has above one number and up to another. */
  function TxsBetween(blocks: map<Header, set<TxHash>>, h: Header, from: nat, to: nat): set<TxHash> {
    set n: nat, t | from < n <= to && t in TxsAt(blocks, h, n) :: t
  }

  ghost predicate SameEntry(a: map<TxHash, nat>, b: map<TxHash, nat>, t: TxHash) {
    (t in a <==> t in b) && (t in a ==> a[t] == b[t])
  }

  /** The lookup after writing the blocks of a chain between two numbers. */
  ghost predicate Relooked(blocks: map<Header, set<TxHash>>, h: Header, from: nat, to: nat, before: map<TxHash, nat>,
                           after: map<TxHash, nat>) {
    && (forall t, n: nat :: from < n <= to && t in TxsAt(blocks, h, n) ==> t in after && after[t] == n)
    && (forall t :: t !in TxsBetween(blocks, h, from, to) ==> SameEntry(before, after, t))
  }

  function EntriesOf(txs: set<TxHash>, n: nat): map<TxHash, nat> {
    map t | t in txs :: n
  }

  lemma TxsBetweenNext(blocks: map<Header, set<TxHash>>, h: Header, from: nat, to: nat, next: nat)
    requires from <= to && next == to + 1
    ensures TxsBetween(blocks, h, from, next) == TxsBetween(blocks, h, from, to) + TxsAt(blocks, h, next)
  {
  }

  lemma RelookedNext(blocks: map<Header, set<TxHash>>, h: Header, from: nat, to: nat, next: nat,
                     before: map<TxHash, nat>, after: map<TxHash, nat>)
    requires NoRepeats(blocks, h) && from <= to && next == to + 1 <= h.number
    requires Relooked(blocks, h, from, to, before, after)
    ensures Relooked(blocks, h, from, next, before, after + EntriesOf(TxsAt(blocks, h, next), next))
  {
    TxsBetweenNext(blocks, h, from, to, next);
    var extended := after + EntriesOf(TxsAt(blocks, h, next), next);
    forall n: nat | from < n <= to ensures TxsAt(blocks, h, n) !! TxsAt(blocks, h, next) {
      assert Two(n, next);
    }
    forall t | t !in TxsBetween(blocks, h, from, next) ensures SameEntry(before, extended, t) {
      assert SameEntry(before, after, t);
    }
  }

  lemma LookedBetween(blocks: map<Header, set<TxHash>>, lookup: map<TxHash, nat>, h: Header, c: nat, t: TxHash)
    requires Looked(blocks, lookup, h) && t in lookup
    ensures t in TxsBetween(blocks, h, c, h.number) <==> lookup[t] > c
  {
  }

  lemma NotBetween(blocks: map<Header, set<TxHash>>, h: Header, n: nat, from: nat, to: nat, t: TxHash)
    requires NoRepeats(blocks, h) && n <= from && to <= h.number && n <= h.number && t in TxsAt(blocks, h, n)
    ensures t !in TxsBetween(blocks, h, from, to)
  {
    forall m: nat | from < m <= to ensures t !in TxsAt(blocks, h, m) {
      assert Two(n, m);
    }
  }

  /** The lookup of a chain, rewritten for another one that parts from it at a number:
      the blocks of the new branch are written, what only the old branch had is deleted,
      and the new head is written last. */
  lemma LookedAfter(blocks: map<Header, set<TxHash>>, left: Header, right: Header, c: nat, k: nat,
                    before: map<TxHash, nat>, written: map<TxHash, nat>, after: map<TxHash, nat>)
    requires Looked(blocks, before, left) && NoRepeats(blocks, right)
    requires c <= left.number && c <= right.number && k == (if c < right.number then right.number - 1 else c)
    requires forall n: nat :: n <= c ==> Ancestor(left, n) == Ancestor(right, n)
    requires Relooked(blocks, right, c, k, before, written)
    requires after == written - (TxsBetween(blocks, left, c, left.number) - TxsBetween(blocks, right, c, k))
                    + EntriesOf(TxsAt(blocks, right, right.number), right.number)
    ensures Looked(blocks, after, right)
  {
    forall t, n: nat | n <= right.number && t in TxsAt(blocks, right, n) ensures t in after && after[t] == n {
      if n < right.number {
        assert Two(n, right.number);
        if n <= c {
          assert t in TxsAt(blocks, left, n);
          NotBetween(blocks, right, n, c, k, t);
          LookedBetween(blocks, before, left, c, t);
          assert SameEntry(before, written, t);
        } else {
          assert t in TxsBetween(blocks, right, c, k);
        }
      }
    }
    forall t | t in after ensures after[t] <= right.number && t in TxsAt(blocks, right, after[t]) {
      if t !in TxsAt(blocks, right, right.number) {
        if t !in TxsBetween(blocks, right, c, k) {
          assert SameEntry(before, written, t);
          LookedBetween(blocks, before, left, c, t);
        }
      }
    }
  }

  /** The index after assigning the ancestors of a header between two numbers. */
  ghost predicate Reindexed(h: Header, from: nat, to: nat, before: map<nat, Header>, after: map<nat, Header>) {
    && (forall n: nat :: from < n <= to ==> n in after && Of(after[n]) == Ancestor(h, n))
    && (forall n: nat :: !(from < n <= to) ==> Agree(before, after, n))
  }

  lemma ReindexedKeys(left: Header, right: Header, c: nat, k: nat, before: map<nat, Header>, after: map<nat, Header>)
    requires Exact(before, left) && c <= left.number && Reindexed(right, c, k, before, after)
    ensures forall n: nat :: n in after <==> n <= if left.number > k then left.number else k
  {
    forall n: nat ensures n in after <==> n <= left.number || n <= k {
      assert c < n <= k || Agree(before, after, n);
    }
  }

  /** The index of a chain, rewritten for another one that parts from it at a number and
      cut above a third: exact just when nothing of the old chain is left above. */
  lemma ExactAfter(left: Header, right: Header, c: nat, k: nat, before: map<nat, Header>, written: map<nat, Header>,
                   cut: nat, after: map<nat, Header>)
    requires Exact(before, left) && c <= left.number && c <= right.number
    requires k == (if c < right.number then right.number - 1 else c)
    requires forall n: nat :: n <= c ==> Ancestor(left, n) == Ancestor(right, n)
    requires Ancestor(right, right.number) == Of(right)
    requires Reindexed(right, c, k, before, written)
    requires cut == if k > c then k else left.number
    requires after == (map n | n in written && n <= cut :: written[n])[right.number := right]
    ensures Exact(after, right) <==> k > c || left.number <= right.number
  {
    forall n: nat ensures n in after <==> (n == right.number || (n <= cut && (n <= left.number || n <= k))) {
      assert Agree(before, written, n) || c < n <= k;
    }
    forall n: nat | n <= right.number ensures n in after && Of(after[n]) == Ancestor(right, n) {
      if n != right.number {
        assert c < n <= k || Agree(before, written, n);
      }
    }
    if !(k > c || left.number <= right.number) {
      assert left.number in after;
    }
  }

  class BlockChain {
    const genesis: Header
    var blocks: map<Header, set<TxHash>>
    var canonical: map<nat, Header>
    var lookup: map<TxHash, nat>
    var current: Header
    var headHeader: Header
    var headFast: Header

    ghost predicate Stored()
      reads this
    {
      Closed(blocks.Keys, genesis) && genesis.parent == Zero && current in blocks
    }

    /** Everything stored about the canonical chain is what the parent links of the head say. */
    ghost predicate Valid()
      reads this
    {
      Stored() && Exact(canonical, current) && Looked(blocks, lookup, current)
    }

    constructor (genesis: Header)
      requires genesis.number == 0 && genesis.parent == Zero
      ensures Valid() && this.genesis == genesis && current == genesis && blocks == map[genesis := {}]
    {
      this.genesis := genesis;
      blocks, canonical, lookup := map[genesis := {}], map[0 := genesis], map[];
      current, headHeader, headFast := genesis, genesis, genesis;
    }

    /** Makes a block the head and assigns its number and transactions to it. */
    method WriteHeadBlock(block: Header)
      requires block in blocks
      modifies this`canonical, this`lookup, this`current, this`headHeader, this`headFast
      ensures canonical == old(canonical)[block.number := block]
      ensures lookup == old(lookup) + EntriesOf(blocks[block], block.number)
      ensures current == block
      ensures
        if block.number in old(canonical) && old(canonical)[block.number] == block
        then headHeader == old(headHeader) && headFast == old(headFast)
        else headHeader == headFast == block
    {
      var updateHeads := !(block.number in canonical && canonical[block.number] == block);
      canonical := canonical[block.number := block];
      lookup := lookup + EntriesOf(blocks[block], block.number);
      if updateHeads {
        headHeader, headFast := block, block;
      }
      current := block;
    }

    /** The blocks of a new branch are written up to a number. */
    ghost predicate WrittenTo(right: Header, c: nat, k: nat, canonical0: map<nat, Header>, lookup0: map<TxHash, nat>,
                              txs: set<TxHash>)
      reads this
    {
      && Reindexed(right, c, k, canonical0, canonical) && Relooked(blocks, right, c, k, lookup0, lookup)
      && txs == TxsBetween(blocks, right, c, k)
    }

    method WriteNext(block: Header, ghost right: Header, ghost c: nat, ghost k: nat,
                     ghost canonical0: map<nat, Header>, ghost lookup0: map<TxHash, nat>, txs: set<TxHash>)
        returns (more: set<TxHash>)
      requires Stored() && right in blocks && NoRepeats(blocks, right) && c <= k < right.number
      requires Of(block) == Ancestor(right, k + 1)
      requires WrittenTo(right, c, k, canonical0, lookup0, txs)
      modifies this`canonical, this`lookup, this`current, this`headHeader, this`headFast
      ensures Stored() && current == block
      ensures WrittenTo(right, c, k + 1, canonical0, lookup0, more)
    {
      AncestorStored(blocks.Keys, genesis, right, k + 1);
      RelookedNext(blocks, right, c, k, k + 1, lookup0, lookup);
      ReindexedNext(right, c, k, block, canonical0, canonical);
      TxsBetweenNext(blocks, right, c, k, k + 1);
      WriteHeadBlock(block);
      more := txs + blocks[block];
    }

    /** Writes the blocks of a new branch, all but its head, from the bottom up. */
    method WriteBranch(added: seq<Header>, ghost right: Header, ghost c: nat) returns (addedTxs: set<TxHash>)
      requires Stored() && right in blocks && LeadsTo(added, right, c) && NoRepeats(blocks, right)
      modifies this`canonical, this`lookup, this`current, this`headHeader, this`headFast
      ensures Stored()
      ensures WrittenTo(right, c, LastWritten(right, c), old(canonical), old(lookup), addedTxs)
      ensures current == if |added| >= 2 then added[1] else old(current)
    {
      addedTxs := {};
      assert WrittenTo(right, c, c, canonical, lookup, {});
      var i: nat := |added|;
      ghost var k: nat := c;
      while i > 1
        invariant i <= |added| && Stored() && k == right.number - i
        invariant i > 0 || |added| == 0
        invariant WrittenTo(right, c, k, old(canonical), old(lookup), addedTxs)
        invariant current == if i < |added| then added[i] else old(current)
      {
        i := i - 1;
        assert Of(added[i]) == Ancestor(right, k + 1);
        addedTxs := WriteNext(added[i], right, c, k, old(canonical), old(lookup), addedTxs);
        k := k + 1;
      }
      assert k == LastWritten(right, c);
    }

    /** Drops the canonical assignments above the head, counting up to the first free number. */
    method ClearAbove(ghost top: nat)
      requires forall n: nat :: n in canonical <==> n <= top
      modifies this`canonical
      ensures canonical == map n | n in old(canonical) && n <= current.number :: old(canonical)[n]
    {
      var index := canonical;
      var i := current.number + 1;
      while i in canonical
        invariant current.number < i && (i <= top + 1 || i == current.number + 1)
        invariant canonical == old(canonical)
        invariant index == map n | n in canonical && !(current.number < n < i) :: canonical[n]
        decreases top + 1 - i
      {
        index := index - {i};
        i := i + 1;
      }
      canonical := index;
    }

    function CanonicalHash(number: nat): Hash
      reads this
    {
      if number in canonical then Of(canonical[number]) else Zero
    }

    /** Whether the index clean-up reaches everything above a new head: it does not where
        the parent of the new head is canonical and the old head is higher. */
    predicate Covered(block: Header)
      reads this
    {
      (block.number > 0 && CanonicalHash(block.number - 1) != block.parent) || current.number <= block.number
    }

    /** Writes a new branch, all but its head, then takes out of the lookup what only the old
        one had, and out of the index what lies above the head. */
    method SwapBranches(added: seq<Header>, deletedTxs: set<TxHash>, ghost right: Header, ghost c: nat)
      returns (ghost written: map<nat, Header>, ghost looked: map<TxHash, nat>)
      requires Stored() && right in blocks && LeadsTo(added, right, c) && NoRepeats(blocks, right)
      requires Exact(canonical, current) && c <= current.number
      modifies this`canonical, this`lookup, this`current, this`headHeader, this`headFast
      ensures Stored() && current == if |added| >= 2 then added[1] else old(current)
      ensures Reindexed(right, c, LastWritten(right, c), old(canonical), written)
      ensures canonical == map n | n in written && n <= current.number :: written[n]
      ensures Relooked(blocks, right, c, LastWritten(right, c), old(lookup), looked)
      ensures lookup == looked - (deletedTxs - TxsBetween(blocks, right, c, LastWritten(right, c)))
    {
      var addedTxs := WriteBranch(added, right, c);
      written, looked := canonical, lookup;
      lookup := lookup - (deletedTxs - addedTxs);
      ghost var k := LastWritten(right, c);
      ReindexedKeys(old(current), right, c, k, old(canonical), written);
      ClearAbove(if old(current).number > k then old(current).number else k);
    }

    /** Where the branch of a block leaves the canonical chain. */
    method ForkOf(block: Header) returns (fork: Fork)
      requires Closed(blocks.Keys, genesis) && current in blocks && block in blocks
      ensures IsFork(current, block, fork)
      ensures |fork.added| == block.number - fork.common.number && forall h :: h in fork.added ==> h in blocks
      ensures forall i :: 0 <= i < |fork.added| ==> Of(fork.added[i]) == Ancestor(block, block.number - i)
    {
      ClosedMeets(blocks.Keys, genesis, current, block);
      fork := FindFork(blocks.Keys, current, block);
      BranchAt(blocks.Keys, block, fork.common.number);
    }

    /** Moves the canonical chain over to the branch of a block, up to its parent, and cleans
        up the lookup and, where it is covered, the index, so that only the block itself
        remains to be written. */
    method Reorg(block: Header) returns (ok: bool)
      requires Valid() && block in blocks && NoRepeats(blocks, block)
      modifies this`canonical, this`lookup, this`current, this`headHeader, this`headFast
      ensures ok && Stored()
      ensures Looked(blocks, lookup + EntriesOf(blocks[block], block.number), block)
      ensures Exact(canonical[block.number := block], block) <==> old(Covered(block))
    {
      var fork := ForkOf(block);
      if !fork.Forked? {
        return false;
      }
      var c := fork.common.number;
      ForkedBelow(blocks.Keys, genesis, current, block, fork);
      CoveredIff(blocks.Keys, genesis, canonical, current, block, fork);
      BranchTxs(blocks, genesis, current, c);
      if block.number > 0 {
        AncestorStored(blocks.Keys, genesis, block, block.number - 1);
      }
      ghost var written, looked := SwapBranches(fork.added, TxsOf(blocks, fork.dropped), block, c);
      ghost var k := LastWritten(block, c);
      LookedAfter(blocks, old(current), block, c, k, old(lookup), looked,
                  lookup + EntriesOf(blocks[block], block.number));
      ExactAfter(old(current), block, c, k, old(canonical), written, current.number, canonical[block.number := block]);
      ok := true;
    }

    /** Whether a block takes the canonical chain over. A block of equal weight and number
        does if the head is not to be preserved, and the block is or wins the toss. */
    predicate Wins(block: Header, currentPreserve: bool, blockPreserve: bool, coin: bool)
      reads this
    {
      Overtakes(Total(block), block.number, Total(current), current.number, !currentPreserve && (blockPreserve || coin))
    }

    method Store(block: Header, txs: set<TxHash>)
      requires Valid() && HasParent(blocks.Keys, block) && (block in blocks ==> blocks[block] == txs)
      modifies this`blocks
      ensures Valid() && blocks == old(blocks)[block := txs]
    {
      ClosedMore(blocks.Keys, genesis, block);
      LookedMore(blocks, genesis, lookup, current, block, txs);
      assert blocks[block := txs].Keys == blocks.Keys + {block};
      blocks := blocks[block := txs];
    }

    /** Makes a stored block the head: whatever chain it is on, the lookup then has exactly
        the transactions of that chain, and the index is exact just when it is covered. */
    method SetCanonical(block: Header)
      requires Valid() && block in blocks && HasParent(blocks.Keys, block) && NoRepeats(blocks, block)
      modifies this`canonical, this`lookup, this`current, this`headHeader, this`headFast
      ensures Stored() && current == block && Looked(blocks, lookup, block)
      ensures Exact(canonical, block) <==> old(Covered(block))
    {
      if block.parent != Of(current) {
        var _ := Reorg(block);
      } else {
        Extended(blocks, lookup, canonical, current, block);
      }
      WriteHeadBlock(block);
    }

    /** Inserts a block on top of a stored one and moves the head there if it wins. */
    method Insert(block: Header, txs: set<TxHash>, currentPreserve: bool, blockPreserve: bool, coin: bool)
        returns (status: Option<WriteStatus>)
      requires Valid() && (block in blocks ==> blocks[block] == txs) && NoRepeats(blocks[block := txs], block)
      modifies this
      ensures Stored() && Looked(blocks, lookup, current)
      ensures status.None? <==> !old(HasParent(blocks.Keys, block))
      ensures status.None? ==> Valid() && blocks == old(blocks) && current == old(current)
      ensures status.Some? ==>
        && blocks == old(blocks)[block := txs]
        && status.value == (if old(Wins(block, currentPreserve, blockPreserve, coin)) then CanonStatTy else SideStatTy)
        && current == (if status.value.CanonStatTy? then block else old(current))
        && (status.value.SideStatTy? ==> canonical == old(canonical) && lookup == old(lookup))
        && (Exact(canonical, current) <==> status.value.SideStatTy? || old(Covered(block)))
    {
      if !HasParent(blocks.Keys, block) {
        return None;
      }
      Store(block, txs);
      if Wins(block, currentPreserve, blockPreserve, coin) {
        SetCanonical(block);
        return Some(CanonStatTy);
      }
      return Some(SideStatTy);
    }

    /** Any run of insertions keeps index and lookup exact as long as the blocks that win
        are covered. */
    method Run(ops: seq<Insertion>) returns (done: nat)
      requires Valid()
      modifies this
      ensures Valid() && done <= |ops|
      ensures done < |ops| ==> !Fits(ops[done])
    {
      done := 0;
      while done < |ops|
        invariant done <= |ops| && Valid()
      {
        var op := ops[done];
        if !Fits(op) {
          return;
        }
        var _ := Insert(op.block, op.txs, op.currentPreserve, op.blockPreserve, op.coin);
        done := done + 1;
      }
    }

    /** The content of a block is fixed by its hash, no transaction is on its chain twice,
        and if the block wins it is covered. */
    predicate Fits(op: Insertion)
      reads this
    {
      && (op.block in blocks ==> blocks[op.block] == op.txs)
      && NoRepeats(blocks[op.block := op.txs], op.block)
      && (HasParent(blocks.Keys, op.block) && Wins(op.block, op.currentPreserve, op.blockPreserve, op.coin)
          ==> Covered(op.block))
    }
  }

  datatype Insertion = Insertion(block: Header, txs: set<TxHash>,
      currentPreserve: bool, blockPreserve: bool, coin: bool)

  lemma ClosedMore(headers: set<Header>, genesis: Header, block: Header)
    requires Closed(headers, genesis) && HasParent(headers, block)
    ensures Closed(headers + {block}, genesis)
  {
    forall h | h in headers + {block} ensures Rooted(headers + {block}, genesis, h) {
      assert h in headers ==> Rooted(headers, genesis, h);
    }
  }

  lemma LookedMore(blocks: map<Header, set<TxHash>>, genesis: Header, lookup: map<TxHash, nat>, head: Header,
                   block: Header, txs: set<TxHash>)
    requires Closed(blocks.Keys, genesis) && head in blocks && Looked(blocks, lookup, head)
    requires block in blocks ==> blocks[block] == txs
    ensures Looked(blocks[block := txs], lookup, head)
  {
    var more := blocks[block := txs];
    forall n: nat | n <= head.number ensures TxsAt(more, head, n) == TxsAt(blocks, head, n) {
      AncestorStored(blocks.Keys, genesis, head, n);
    }
    forall t | t in lookup ensures lookup[t] <= head.number && t in TxsAt(more, head, lookup[t]) {
      assert t in TxsAt(blocks, head, lookup[t]);
    }
  }

  /** A block on top of the head extends index and lookup. */
  lemma Extended(blocks: map<Header, set<TxHash>>, lookup: map<TxHash, nat>, canonical: map<nat, Header>,
                 current: Header, block: Header)
    requires Looked(blocks, lookup, current) && Exact(canonical, current) && block in blocks && NoRepeats(blocks, block)
    requires block.parent == Of(current) && block.number == current.number + 1
    ensures Looked(blocks, lookup + EntriesOf(blocks[block], block.number), block)
    ensures Exact(canonical[block.number := block], block)
  {
    var c := current.number;
    LookedAfter(blocks, current, block, c, c, lookup, lookup, lookup + EntriesOf(blocks[block], block.number));
  }

  /** Below the fork both chains are the same. */
  lemma ForkedBelow(blocks: set<Header>, genesis: Header, left: Header, right: Header, fork: Fork)
    requires Closed(blocks, genesis) && left in blocks && right in blocks && IsFork(left, right, fork)
    ensures forall n: nat :: n <= fork.common.number ==> Ancestor(left, n) == Ancestor(right, n)
  {
    var c := fork.common.number;
    forall n: nat | n <= c ensures Ancestor(left, n) == Ancestor(right, n) {
      AncestorOfAncestor(blocks, genesis, left, c, n);
      AncestorOfAncestor(blocks, genesis, right, c, n);
    }
  }

  /** At most one block is added just when the parent of the new head is canonical. */
  lemma CoveredIff(blocks: set<Header>, genesis: Header, canonical: map<nat, Header>, left: Header, right: Header,
                   fork: Fork)
    requires Closed(blocks, genesis) && left in blocks && right in blocks && IsFork(left, right, fork)
    requires Exact(canonical, left)
    requires genesis.parent == Zero
    ensures right.number >= fork.common.number + 2 <==>
      right.number > 0 && (right.number - 1 in canonical ==> Of(canonical[right.number - 1]) != right.parent)
  {
    if right.number > 0 {
      assert Rooted(blocks, genesis, right);
      var n := right.number - 1;
      assert Ancestor(right, n) == right.parent;
      if n <= fork.common.number {
        ForkedBelow(blocks, genesis, left, right, fork);
      }
    }
  }

  /** The transactions of a branch are those of its numbers. */
  lemma BranchTxs(blocks: map<Header, set<TxHash>>, genesis: Header, h: Header, c: nat)
    requires Closed(blocks.Keys, genesis) && h in blocks
    ensures TxsOf(blocks, Branch(h, c)) == TxsBetween(blocks, h, c, h.number)
  {
    if c <= h.number {
      ClosedReaches(blocks.Keys, genesis, h, c);
      BranchAt(blocks.Keys, h, c);
    }
    var branch := Branch(h, c);
    forall t | t in TxsOf(blocks, branch) ensures t in TxsBetween(blocks, h, c, h.number) {
      var i: nat :| i < |branch| && t in blocks[branch[i]];
      assert t in TxsAt(blocks, h, h.number - i);
    }
    forall t | t in TxsBetween(blocks, h, c, h.number) ensures t in TxsOf(blocks, branch) {
      var n: nat :| c < n <= h.number && t in TxsAt(blocks, h, n);
      assert Of(branch[h.number - n]) == Ancestor(h, n);
    }
  }

  /** The number up to which the blocks of a branch are written before its head. */
  function LastWritten(right: Header, c: nat): (k: nat)
    ensures c <= k
  {
    if c < right.number then right.number - 1 else c
  }

  lemma ReindexedNext(h: Header, from: nat, to: nat, block: Header, before: map<nat, Header>, after: map<nat, Header>)
    requires from <= to && Reindexed(h, from, to, before, after) && Of(block) == Ancestor(h, to + 1)
    requires block.number == to + 1
    ensures Reindexed(h, from, to + 1, before, after[block.number := block])
  {
    AgreeElsewhere(before, after, block);
  }

  /** A heavy block right above the genesis block overtakes a chain of two: the second
      number of the dropped chain stays in the index. */
  method UncoveredBlock() returns (chain: BlockChain)
    ensures chain.Stored() && !Exact(chain.canonical, chain.current)
  {
    var genesis := Header(Zero, 0, 1, 0);
    var first, heavy := Header(Of(genesis), 1, 1, 0), Header(Of(genesis), 1, 5, 0);
    var second := Header(Of(first), 2, 1, 0);
    chain := new BlockChain(genesis);
    assert Total(first) == 2 && Total(second) == 3 && Total(heavy) == 6;
    var _ := chain.Insert(first, {}, false, false, false);
    var _ := chain.Insert(second, {}, false, false, false);
    var _ := chain.Insert(heavy, {}, false, false, false);
  }
}
