/** A nonce-to-transaction map with a heap of its nonces and a cached ordering. */
module SortedMap {
  import opened Transactions
  import opened Lists
  import opened Heaps

  datatype Cache = Stale | Cached(txs: seq<Tx>)

  predicate LessNonce(a: nat, b: nat) {
    a < b
  }

  lemma LessNonceIsOrder()
    ensures IsOrder(LessNonce)
  {
  }

  // ------------------------------------------------------------- sorted contents

  ghost predicate Increasing(txs: seq<Tx>) {
    forall i, j :: 0 <= i < j < |txs| ==> txs[i].nonce < txs[j].nonce
  }

  ghost predicate HasNonce(txs: seq<Tx>, n: nat) {
    exists i :: 0 <= i < |txs| && txs[i].nonce == n
  }

  /** `txs` are the transactions of `m` in nonce order. */
  ghost predicate IsFlat(txs: seq<Tx>, m: Items) {
    && Increasing(txs)
    && (forall i :: 0 <= i < |txs| ==> txs[i].nonce in m && m[txs[i].nonce] == txs[i])
    && (forall n {:trigger HasNonce(txs, n)} :: n in m ==> HasNonce(txs, n))
  }

  lemma FlatInit(txs: seq<Tx>, m: Items)
    requires IsFlat(txs, m) && txs != []
    ensures IsFlat(txs[..|txs| - 1], m - {txs[|txs| - 1].nonce})
  {
    var init, last := txs[..|txs| - 1], txs[|txs| - 1];
    forall n: nat | n in m && n != last.nonce ensures HasNonce(init, n) {
      assert HasNonce(txs, n);
      var i :| 0 <= i < |txs| && txs[i].nonce == n;
      assert init[i].nonce == n;
    }
  }

  lemma {:induction false} FlatSize(txs: seq<Tx>, m: Items)
    requires IsFlat(txs, m)
    ensures |txs| == |m|
    decreases |txs|
  {
    if txs == [] {
      assert forall n: nat :: n in m ==> HasNonce(txs, n);
      assert m == map[];
    } else {
      FlatInit(txs, m);
      FlatSize(txs[..|txs| - 1], m - {txs[|txs| - 1].nonce});
    }
  }

  lemma FlatLast(txs: seq<Tx>, m: Items)
    requires IsFlat(txs, m) && txs != []
    ensures IsHighest(m, txs[|txs| - 1].nonce)
  {
    forall n: nat | n in m ensures n <= txs[|txs| - 1].nonce {
      assert HasNonce(txs, n);
    }
  }

  /** There is one ordering only. */
  lemma {:induction false} FlatUnique(a: seq<Tx>, b: seq<Tx>, m: Items)
    requires IsFlat(a, m) && IsFlat(b, m)
    ensures a == b
    decreases |a|
  {
    FlatSize(a, m);
    FlatSize(b, m);
    if a != [] {
      var ia, ib := a[..|a| - 1], b[..|b| - 1];
      var la, lb := a[|a| - 1], b[|b| - 1];
      FlatLast(a, m);
      FlatLast(b, m);
      assert la == lb;
      FlatInit(a, m);
      FlatInit(b, m);
      FlatUnique(ia, ib, m - {la.nonce});
      assert a == ia + [la] && b == ib + [lb];
    }
  }

  /** Appending a transaction of a higher nonce keeps the order. */
  lemma FlatAppend(txs: seq<Tx>, m: Items, tx: Tx)
    requires IsFlat(txs, m)
    requires forall n :: n in m ==> n < tx.nonce
    ensures IsFlat(txs + [tx], With(m, tx))
  {
    var all := txs + [tx];
    forall n: nat | n in With(m, tx) ensures HasNonce(all, n) {
      if n == tx.nonce {
        assert all[|txs|].nonce == n;
      } else {
        assert HasNonce(txs, n);
        var i :| 0 <= i < |txs| && txs[i].nonce == n;
        assert all[i].nonce == n;
      }
    }
  }

  /** An ordering splits at any nonce. */
  lemma FlatSplit(txs: seq<Tx>, m: Items, bound: nat, k: nat)
    requires IsFlat(txs, m) && k <= |txs|
    requires k == |Below(m, bound)|
    ensures IsFlat(txs[..k], Below(m, bound)) && IsFlat(txs[k..], From(m, bound))
  {
    var j := FirstFrom(txs, bound);
    FlatCut(txs, m, bound, j);
    FlatSize(txs[..j], Below(m, bound));
  }

  lemma {:induction false} FirstFrom(txs: seq<Tx>, bound: nat) returns (j: nat)
    requires Increasing(txs)
    ensures j <= |txs|
    ensures forall i :: 0 <= i < j ==> txs[i].nonce < bound
    ensures forall i :: j <= i < |txs| ==> bound <= txs[i].nonce
  {
    j := 0;
    while j < |txs| && txs[j].nonce < bound
      invariant j <= |txs|
      invariant forall i :: 0 <= i < j ==> txs[i].nonce < bound
    {
      j := j + 1;
    }
  }

  lemma FlatCut(txs: seq<Tx>, m: Items, bound: nat, j: nat)
    requires IsFlat(txs, m) && j <= |txs|
    requires forall i :: 0 <= i < j ==> txs[i].nonce < bound
    requires forall i :: j <= i < |txs| ==> bound <= txs[i].nonce
    ensures IsFlat(txs[..j], Below(m, bound)) && IsFlat(txs[j..], From(m, bound))
  {
    forall n: nat | n in m ensures if n < bound then HasNonce(txs[..j], n) else HasNonce(txs[j..], n) {
      assert HasNonce(txs, n);
      var i :| 0 <= i < |txs| && txs[i].nonce == n;
      if i < j {
        assert txs[..j][i].nonce == n;
      } else {
        assert txs[j..][i - j].nonce == n;
      }
    }
  }

  // --------------------------------------------------------------------- indices

  /** The index lists every nonce once, as a heap. */
  ghost predicate IsIndex(index: seq<nat>, m: Items) {
    IsHeap(index, LessNonce) && multiset(index) == multiset(m.Keys)
  }

  lemma IndexMembers(index: seq<nat>, m: Items)
    requires multiset(index) == multiset(m.Keys)
    ensures |index| == |m|
    ensures forall i :: 0 <= i < |index| ==> index[i] in m
    ensures forall n :: n in m ==> n in index
  {
    forall i | 0 <= i < |index| ensures index[i] in m {
      assert index[i] in multiset(index);
    }
    forall n | n in m ensures n in index {
      assert n in multiset(index);
    }
    assert |multiset(index)| == |m.Keys|;
  }

  lemma IndexTop(index: seq<nat>, m: Items)
    requires IsIndex(index, m) && index != []
    ensures IsLowest(m, index[0])
  {
    IndexMembers(index, m);
    LessNonceIsOrder();
    AllLeast(index, LessNonce);
  }

  lemma IndexPush(index: seq<nat>, m: Items, tx: Tx)
    requires IsIndex(index, m) && tx.nonce !in m
    ensures IsIndex(Push(index, tx.nonce, LessNonce), With(m, tx))
  {
    LessNonceIsOrder();
    PushHeap(index, tx.nonce, LessNonce);
    assert With(m, tx).Keys == m.Keys + {tx.nonce};
  }

  lemma IndexPop(index: seq<nat>, m: Items)
    requires IsIndex(index, m) && index != []
    ensures IsIndex(Pop(index, LessNonce, false), m - {index[0]})
  {
    LessNonceIsOrder();
    PopHeap(index, LessNonce, false);
    IndexMembers(index, m);
    KeysWithout(m, index[0], Pop(index, LessNonce, false));
  }

  lemma IndexRemove(index: seq<nat>, m: Items, i: nat)
    requires IsIndex(index, m) && i < |index|
    ensures IsIndex(RemoveAt(index, i, LessNonce), m - {index[i]})
  {
    LessNonceIsOrder();
    RemoveAtHeap(index, i, LessNonce);
    IndexMembers(index, m);
    KeysWithout(m, index[i], RemoveAt(index, i, LessNonce));
  }

  lemma KeysWithout(m: Items, n: nat, rest: seq<nat>)
    requires n in m && multiset(m.Keys) == multiset{n} + multiset(rest)
    ensures multiset(rest) == multiset((m - {n}).Keys)
  {
    assert (m - {n}).Keys == m.Keys - {n};
    assert multiset(m.Keys - {n}) == multiset(m.Keys) - multiset{n};
  }

  ghost predicate Sorted(s: seq<nat>) {
    forall i, j :: 0 <= i < j < |s| ==> s[i] <= s[j]
  }

  ghost predicate AllAtMost(s: seq<nat>, h: seq<nat>) {
    forall i, x :: 0 <= i < |s| && x in h ==> s[i] <= x
  }

  lemma SortStep(r: seq<nat>, h: seq<nat>)
    requires Sorted(r) && AllAtMost(r, h) && h != [] && IsHeap(h, LessNonce)
    ensures
      var rest := Pop(h, LessNonce, false);
      && Sorted(r + [h[0]]) && AllAtMost(r + [h[0]], rest) && IsHeap(rest, LessNonce)
      && multiset(r + [h[0]]) + multiset(rest) == multiset(r) + multiset(h)
  {
    LessNonceIsOrder();
    PopHeap(h, LessNonce, false);
    AllLeast(h, LessNonce);
    var rest := Pop(h, LessNonce, false);
    assert h[0] in h;
    forall x | x in rest ensures x in h && h[0] <= x {
      assert x in multiset(rest);
      assert x in multiset(h);
      assert !LessNonce(x, h[0]);
    }
  }

  /** Sorting by building a heap and taking its elements out in turn. */
  method SortNonces(s: seq<nat>) returns (r: seq<nat>)
    ensures multiset(r) == multiset(s) && Sorted(r)
  {
    LessNonceIsOrder();
    InitHeap(s, LessNonce, false);
    var h := Init(s, LessNonce, false);
    r := [];
    while h != []
      invariant IsHeap(h, LessNonce)
      invariant multiset(r) + multiset(h) == multiset(s)
      invariant Sorted(r) && AllAtMost(r, h)
      decreases |h|
    {
      SortStep(r, h);
      r := r + [h[0]];
      h := Pop(h, LessNonce, false);
    }
  }

  /** The nonces of a map, in no particular order. */
  method ListNonces(m: Items) returns (s: seq<nat>)
    ensures multiset(s) == multiset(m.Keys)
  {
    s := [];
    var todo := m.Keys;
    while todo != {}
      invariant todo <= m.Keys
      invariant multiset(s) + multiset(todo) == multiset(m.Keys)
      decreases todo
    {
      var n :| n in todo;
      s := s + [n];
      assert multiset(todo - {n}) == multiset(todo) - multiset{n};
      todo := todo - {n};
    }
  }

  // ------------------------------------------------------------------- the class

  class TxSortedMap {
    var items: Items
    var index: seq<nat>
    var cache: Cache

    ghost predicate Valid()
      reads this
    {
      && Keyed(items)
      && IsIndex(index, items)
      && (cache.Cached? ==> IsFlat(cache.txs, items))
    }

    constructor ()
      ensures Valid() && items == map[]
    {
      items, index, cache := map[], [], Stale;
    }

    function Get(nonce: nat): Option<Tx>
      reads this
    {
      if nonce in items then Some(items[nonce]) else None
    }

    /** Inserts or overwrites the transaction of a nonce. */
    method Put(tx: Tx)
      requires Valid()
      modifies this
      ensures Valid() && items == With(old(items), tx)
    {
      if tx.nonce !in items {
        IndexPush(index, items, tx);
        index := Push(index, tx.nonce, LessNonce);
      }
      assert tx.nonce in items ==> With(items, tx).Keys == items.Keys;
      items := With(items, tx);
      cache := Stale;
    }

    /** Takes out the transaction of the lowest nonce. */
    method PopLowest() returns (tx: Tx)
      requires Keyed(items) && IsIndex(index, items) && index != []
      modifies this`items, this`index
      ensures IsLowest(old(items), tx.nonce) && tx.nonce == old(index)[0] && tx == old(items)[tx.nonce]
      ensures Keyed(items) && IsIndex(index, items)
      ensures items == old(items) - {tx.nonce} && |index| == |old(index)| - 1
    {
      IndexTop(index, items);
      IndexPop(index, items);
      tx := items[index[0]];
      index := Pop(index, LessNonce, false);
      items := items - {tx.nonce};
    }

    /** Removes and returns everything below the threshold, in nonce order. */
    method Forward(threshold: nat) returns (removed: seq<Tx>)
      requires Valid()
      modifies this
      ensures Valid() && items == From(old(items), threshold)
      ensures IsFlat(removed, Below(old(items), threshold))
    {
      removed := [];
      var bound: nat := 0;
      while |index| > 0 && index[0] < threshold
        invariant Keyed(items) && IsIndex(index, items)
        invariant bound <= threshold
        invariant items == From(old(items), bound)
        invariant IsFlat(removed, Below(old(items), bound))
        invariant cache == old(cache)
        decreases |index|
      {
        var tx := PopLowest();
        ForwardStep(old(items), bound, tx.nonce);
        FlatAppend(removed, Below(old(items), bound), tx);
        removed := removed + [tx];
        bound := tx.nonce + 1;
      }
      ForwardDone(old(items), bound, threshold, index);
      if cache.Cached? {
        CacheTail(cache.txs, removed, old(items), threshold);
        cache := Cached(cache.txs[|removed|..]);
      }
    }

    /** Takes out the transactions that a predicate selects and returns them in
        no particular order, leaving the index behind. */
    method FilterRaw(bad: Tx -> bool) returns (removed: seq<Tx>)
      requires Keyed(items)
      modifies this`items, this`cache
      ensures Keyed(items) && items == Rejecting(old(items), bad)
      ensures AreAll(removed, Without(old(items), items))
      ensures cache == if removed == [] then old(cache) else Stale
    {
      removed := [];
      var todo := items.Keys;
      while todo != {}
        invariant todo <= items.Keys <= old(items).Keys
        invariant forall n :: n in items ==> items[n] == old(items)[n]
        invariant forall n :: n in old(items) && n !in todo ==> (n in items <==> !bad(old(items)[n]))
        invariant Distinct(removed)
        invariant forall tx :: tx in removed <==>
          tx.nonce in old(items) && tx.nonce !in todo && old(items)[tx.nonce] == tx && bad(tx)
        invariant cache == old(cache)
        decreases todo
      {
        var n :| n in todo;
        todo := todo - {n};
        if bad(items[n]) {
          removed := removed + [items[n]];
          items := items - {n};
        }
      }
      if removed != [] {
        cache := Stale;
      }
    }

    /** Builds the index anew. */
    method Reheap()
      requires Keyed(items)
      modifies this`index, this`cache
      ensures Valid()
    {
      var nonces := ListNonces(items);
      LessNonceIsOrder();
      InitHeap(nonces, LessNonce, false);
      index := Init(nonces, LessNonce, false);
      cache := Stale;
    }

    method Filter(bad: Tx -> bool) returns (removed: seq<Tx>)
      requires Valid()
      modifies this
      ensures Valid() && items == Rejecting(old(items), bad)
      ensures AreAll(removed, Without(old(items), items))
    {
      removed := FilterRaw(bad);
      if |removed| > 0 {
        Reheap();
      } else {
        NothingOut(old(items), items);
      }
    }

    /** Removes one nonce. */
    method Remove(nonce: nat) returns (found: bool)
      requires Valid()
      modifies this
      ensures Valid() && found == (nonce in old(items)) && items == old(items) - {nonce}
    {
      found := nonce in items;
      if found {
        IndexMembers(index, items);
        var i := Position(index, nonce);
        IndexRemove(index, items, i);
        index := RemoveAt(index, i, LessNonce);
        items := items - {nonce};
        cache := Stale;
      }
    }

    /** Takes out consecutive nonces from the lowest one up to the first gap. */
    method TakeRun(ghost low: nat) returns (run: seq<Tx>, ghost next: nat)
      requires Valid() && IsLowest(items, low)
      modifies this`items, this`index
      ensures Keyed(items) && IsIndex(index, items)
      ensures low < next && next !in old(items)
      ensures Spans(old(items), low, next)
      ensures items == From(old(items), next) && IsFlat(run, Below(old(items), next))
    {
      run := [];
      IndexMembers(index, items);
      IndexTop(index, items);
      FromLowest(items, low);
      var at: nat := index[0];
      while |index| > 0 && index[0] == at
        invariant low <= at
        invariant Keyed(items) && IsIndex(index, items)
        invariant items == From(old(items), at)
        invariant Spans(old(items), low, at)
        invariant IsFlat(run, Below(old(items), at))
        invariant at == low ==> index != [] && index[0] == low
        decreases |index|
      {
        var tx := PopLowest();
        ForwardStep(old(items), at, at);
        SpansNext(old(items), low, at);
        FlatAppend(run, Below(old(items), at), tx);
        run := run + [tx];
        at := at + 1;
      }
      NotAtTop(index, items, at);
      next := at;
    }

    /** Removes and returns the run of consecutive nonces from the lowest one, if
        that lies at or below the start. */
    method Ready(start: nat) returns (ready: seq<Tx>)
      requires Valid()
      modifies this
      ensures Valid() && items == Without(old(items), ReadyRun(old(items), start))
      ensures IsFlat(ready, ReadyRun(old(items), start))
    {
      ready := [];
      IndexMembers(index, items);
      if |index| == 0 {
        assert items == map[] && Without(items, map[]) == items;
        return;
      }
      IndexTop(index, items);
      if index[0] > start {
        assert Without(items, map[]) == items;
        return;
      }
      ghost var next;
      ready, next := TakeRun(index[0]);
      ReadyRunIs(old(items), start, next);
      cache := Stale;
    }

    /** The contents in nonce order, remembered until they change. */
    method Flatten() returns (txs: seq<Tx>)
      requires Valid()
      modifies this`cache
      ensures Valid() && IsFlat(txs, items)
    {
      if cache.Stale? {
        var nonces := ListNonces(items);
        nonces := SortNonces(nonces);
        SortedIndexIsFlat(items, nonces);
        cache := Cached(TxsAt(items, nonces));
      }
      txs := cache.txs;
    }

    method LastElement() returns (tx: Tx)
      requires Valid() && items != map[]
      modifies this`cache
      ensures Valid() && IsHighest(items, tx.nonce) && items[tx.nonce] == tx
    {
      var txs := Flatten();
      FlatSize(txs, items);
      FlatLast(txs, items);
      tx := txs[|txs| - 1];
    }

    /** Takes out the last transactions of an ordering, highest nonce first. */
    method DropLast(flat: seq<Tx>, threshold: nat) returns (drops: seq<Tx>)
      requires Keyed(items) && IsFlat(flat, items) && threshold <= |flat|
      modifies this`items
      ensures Keyed(items) && IsFlat(flat[..threshold], items)
      ensures drops == Backwards(flat[threshold..])
    {
      drops := [];
      var size: nat := |flat|;
      assert flat[..size] == flat;
      while size > threshold
        invariant threshold <= size <= |flat|
        invariant Keyed(items) && IsFlat(flat[..size], items)
        invariant drops == Backwards(flat[size..])
      {
        FlatInit(flat[..size], items);
        assert flat[..size][..size - 1] == flat[..size - 1];
        assert flat[size - 1..] == [flat[size - 1]] + flat[size..];
        drops := drops + [flat[size - 1]];
        items := items - {flat[size - 1].nonce};
        size := size - 1;
      }
    }

    /** Keeps the lowest nonces only and returns the others, highest first. */
    method Cap(threshold: nat) returns (drops: seq<Tx>)
      requires Valid()
      modifies this
      ensures Valid() && IsCapped(old(items), threshold, items)
      ensures IsFlat(Backwards(drops), Without(old(items), items))
    {
      if |items| <= threshold {
        WithoutAll(items);
        return [];
      }
      var sorted, flat := SortIndex();
      drops := DropLast(flat, threshold);
      CappedFlat(flat, old(items), sorted, threshold, items);
      index := Init(sorted[..threshold], LessNonce, false);
      if cache.Cached? {
        FlatUnique(cache.txs, flat, old(items));
        cache := Cached(cache.txs[..|cache.txs| - |drops|]);
      }
    }

    /** The nonces in order, and the transactions. */
    method SortIndex() returns (sorted: seq<nat>, flat: seq<Tx>)
      requires Valid()
      ensures IsFlat(flat, items) && |flat| == |items| == |sorted|
      ensures forall i :: 0 <= i < |flat| ==> sorted[i] == flat[i].nonce
    {
      IndexMembers(index, items);
      sorted := SortNonces(index);
      SortedIndexIsFlat(items, sorted);
      flat := TxsAt(items, sorted);
      FlatSize(flat, items);
    }
  }

  lemma CappedFlat(flat: seq<Tx>, m: Items, sorted: seq<nat>, k: nat, kept: Items)
    requires IsFlat(flat, m) && k <= |flat| == |sorted| && IsFlat(flat[..k], kept)
    requires forall i :: 0 <= i < |flat| ==> sorted[i] == flat[i].nonce
    ensures IsCapped(m, k, kept) && IsFlat(Backwards(Backwards(flat[k..])), Without(m, kept))
    ensures IsIndex(Init(sorted[..k], LessNonce, false), kept)
  {
    FlatPrefix(flat, m, k, kept);
    FlatSuffix(flat, m, k, kept);
    BackwardsTwice(flat[k..]);
    IndexFront(flat, kept, sorted, k);
  }

  lemma IndexFront(flat: seq<Tx>, m: Items, sorted: seq<nat>, k: nat)
    requires k <= |flat| == |sorted| && IsFlat(flat[..k], m)
    requires forall i :: 0 <= i < |flat| ==> sorted[i] == flat[i].nonce
    ensures IsIndex(Init(sorted[..k], LessNonce, false), m)
  {
    FlatKeys(flat[..k], m, sorted[..k]);
    LessNonceIsOrder();
    InitHeap(sorted[..k], LessNonce, false);
  }

  function Backwards<T>(s: seq<T>): (r: seq<T>)
    ensures |r| == |s|
  {
    seq(|s|, i requires 0 <= i < |s| => s[|s| - 1 - i])
  }

  lemma BackwardsTwice<T>(s: seq<T>)
    ensures Backwards(Backwards(s)) == s
  {
  }

  lemma {:induction false} FlatKeys(txs: seq<Tx>, m: Items, nonces: seq<nat>)
    requires IsFlat(txs, m) && |nonces| == |txs|
    requires forall i :: 0 <= i < |txs| ==> nonces[i] == txs[i].nonce
    ensures multiset(nonces) == multiset(m.Keys)
    decreases |txs|
  {
    FlatSize(txs, m);
    if txs != [] {
      var last, init := txs[|txs| - 1].nonce, nonces[..|txs| - 1];
      FlatInit(txs, m);
      FlatKeys(txs[..|txs| - 1], m - {last}, init);
      assert nonces == init + [last];
      assert m.Keys == (m - {last}).Keys + {last};
    }
  }

  /** Where a nonce stands in an ordering decides whether the front part has it. */
  lemma WhichSide(txs: seq<Tx>, m: Items, k: nat, kept: Items, n: nat) returns (i: nat)
    requires IsFlat(txs, m) && k <= |txs| && IsFlat(txs[..k], kept) && n in m
    ensures i < |txs| && txs[i].nonce == n
    ensures n in kept <==> i < k
  {
    assert HasNonce(txs, n);
    i :| 0 <= i < |txs| && txs[i].nonce == n;
    assert n in kept ==> HasNonce(txs[..k], n);
    if i < k {
      assert txs[..k][i].nonce == n;
    }
  }

  /** The front of an ordering holds the lowest nonces. */
  lemma FlatPrefix(txs: seq<Tx>, m: Items, k: nat, kept: Items)
    requires IsFlat(txs, m) && k <= |txs| && IsFlat(txs[..k], kept)
    ensures IsCapped(m, k, kept)
  {
    FlatSize(txs, m);
    FlatSize(txs[..k], kept);
    forall n: nat | n in kept ensures n in m && kept[n] == m[n] {
      assert HasNonce(txs[..k], n);
    }
    forall n: nat, j: nat | n in kept && j in m && j !in kept ensures n < j {
      var at := WhichSide(txs, m, k, kept, n);
      var at' := WhichSide(txs, m, k, kept, j);
    }
  }

  /** The back of an ordering holds the other ones. */
  lemma FlatSuffix(txs: seq<Tx>, m: Items, k: nat, kept: Items)
    requires IsFlat(txs, m) && k <= |txs| && IsFlat(txs[..k], kept)
    ensures IsFlat(txs[k..], Without(m, kept))
  {
    forall i | k <= i < |txs| ensures txs[i].nonce !in kept {
      var at := WhichSide(txs, m, k, kept, txs[i].nonce);
      assert at == i;
    }
    forall n: nat | n in Without(m, kept) ensures HasNonce(txs[k..], n) {
      var i := WhichSide(txs, m, k, kept, n);
      assert txs[k..][i - k].nonce == n;
    }
  }

  method Position(s: seq<nat>, x: nat) returns (i: nat)
    requires x in s
    ensures i < |s| && s[i] == x
  {
    i := 0;
    while s[i] != x
      invariant i < |s| && x !in s[..i]
      decreases |s| - i
    {
      i := i + 1;
    }
  }

  /** Every nonce from `low` up to `next` is taken. */
  ghost predicate Spans(m: Items, low: nat, next: nat) {
    forall k :: low <= k < next ==> k in m
  }

  lemma SpansNext(m: Items, low: nat, next: nat)
    requires Spans(m, low, next) && next in m
    ensures Spans(m, low, next + 1)
  {
  }

  lemma FromLowest(m: Items, low: nat)
    requires IsLowest(m, low)
    ensures From(m, low) == m && Below(m, low) == map[]
  {
  }

  lemma NotAtTop(index: seq<nat>, m: Items, n: nat)
    requires IsIndex(index, m)
    requires forall k :: k in m ==> n <= k
    requires index == [] || index[0] != n
    ensures n !in m
  {
    IndexMembers(index, m);
    if index != [] {
      IndexTop(index, m);
    }
  }

  /** The transactions of the given nonces, dropped from the back. */
  function TxsAt(m: Items, nonces: seq<nat>): (txs: seq<Tx>)
    requires forall i :: 0 <= i < |nonces| ==> nonces[i] in m
    ensures |txs| == |nonces|
  {
    seq(|nonces|, i requires 0 <= i < |nonces| => m[nonces[i]])
  }

  lemma SortedIndexIsFlat(m: Items, nonces: seq<nat>)
    requires Keyed(m) && Sorted(nonces) && multiset(nonces) == multiset(m.Keys)
    ensures forall i :: 0 <= i < |nonces| ==> nonces[i] in m
    ensures IsFlat(TxsAt(m, nonces), m)
  {
    IndexMembers(nonces, m);
    StrictlySorted(nonces, m.Keys);
    AscendingIsFlat(m, nonces);
  }

  lemma AscendingIsFlat(m: Items, nonces: seq<nat>)
    requires Keyed(m) && forall i, j :: 0 <= i < j < |nonces| ==> nonces[i] < nonces[j]
    requires forall n: nat :: n in nonces <==> n in m
    ensures IsFlat(TxsAt(m, nonces), m)
  {
    var txs := TxsAt(m, nonces);
    forall n: nat | n in m ensures HasNonce(txs, n) {
      var i :| 0 <= i < |nonces| && nonces[i] == n;
      assert txs[i].nonce == n;
    }
  }

  lemma StrictlySorted(s: seq<nat>, keys: set<nat>)
    requires Sorted(s) && multiset(s) == multiset(keys)
    ensures forall i, j :: 0 <= i < j < |s| ==> s[i] < s[j]
  {
    forall i, j | 0 <= i < j < |s| ensures s[i] < s[j] {
      DistinctKeys(s, keys, i, j);
    }
  }

  lemma DistinctKeys(s: seq<nat>, keys: set<nat>, i: nat, j: nat)
    requires i < j < |s| && multiset(s) == multiset(keys)
    ensures s[i] != s[j]
  {
    assert s == s[..j] + [s[j]] + s[j + 1..];
    assert multiset(s) == multiset(s[..j]) + multiset{s[j]} + multiset(s[j + 1..]);
    assert s[i] in s[..j];
    assert multiset(s)[s[j]] <= 1;
  }

  /** What is left once the transactions that a predicate selects are out. */
  function Rejecting(m: Items, bad: Tx -> bool): Items {
    map n | n in m && !bad(m[n]) :: m[n]
  }

  /** `txs` are the transactions of `m`, each once, in any order. */
  ghost predicate AreAll(txs: seq<Tx>, m: Items) {
    Distinct(txs) && forall tx :: tx in txs <==> tx.nonce in m && m[tx.nonce] == tx
  }

  lemma NothingOut(m: Items, rest: Items)
    requires Keyed(m) && Within(rest, m) && AreAll([], Without(m, rest))
    ensures rest == m
  {
  }

  lemma ForwardStep(m: Items, bound: nat, nonce: nat)
    requires Keyed(m) && IsLowest(From(m, bound), nonce)
    ensures nonce in m && bound <= nonce
    ensures From(m, bound) - {nonce} == From(m, nonce + 1)
    ensures With(Below(m, bound), m[nonce]) == Below(m, nonce + 1)
  {
    BelowNext(m, bound, nonce);
    assert forall k :: k in m && bound <= k ==> k in From(m, bound);
  }

  lemma ForwardDone(m: Items, bound: nat, threshold: nat, index: seq<nat>)
    requires IsIndex(index, From(m, bound)) && bound <= threshold
    requires index == [] || threshold <= index[0]
    ensures From(m, bound) == From(m, threshold) && Below(m, bound) == Below(m, threshold)
  {
    var rest := From(m, bound);
    IndexMembers(index, rest);
    if index != [] {
      IndexTop(index, rest);
    }
    forall n: nat | n in m && bound <= n ensures threshold <= n {
      assert n in rest;
      assert n in index;
    }
  }

  /** The cached order without its first transactions is the order of the rest. */
  lemma CacheTail(txs: seq<Tx>, removed: seq<Tx>, m: Items, threshold: nat)
    requires IsFlat(txs, m) && IsFlat(removed, Below(m, threshold))
    ensures |removed| <= |txs| && IsFlat(txs[|removed|..], From(m, threshold))
  {
    FlatSize(removed, Below(m, threshold));
    FlatSize(txs, m);
    PartSize(Below(m, threshold), m);
    FlatSplit(txs, m, threshold, |removed|);
  }
}
