/** The two price heaps over the remote transactions of the pool. Entries are not
    taken out when their transaction leaves the pool; they turn stale. */
module PricedList {
  import opened Transactions
  import opened Heaps
  import opened Lookup

  const URGENT_RATIO := 4
  const FLOATING_RATIO := 1

  /** The tip a block producer gets out of a transaction at a base fee. */
  function EffectiveTip(tx: Tx, baseFee: nat): int {
    if tx.tipCap <= tx.feeCap - baseFee then tx.tipCap else tx.feeCap - baseFee
  }

  /** Whether `a` pays less than `b`. */
  predicate Cheaper(a: Tx, b: Tx, baseFee: Option<nat>) {
    var tipA := if baseFee.Some? then EffectiveTip(a, baseFee.value) else 0;
    var tipB := if baseFee.Some? then EffectiveTip(b, baseFee.value) else 0;
    || tipA < tipB
    || (tipA == tipB && a.feeCap < b.feeCap)
    || (tipA == tipB && a.feeCap == b.feeCap && a.tipCap < b.tipCap)
  }

  /** The heap order: the cheaper first, and the higher nonce first among equals. */
  function Before(baseFee: Option<nat>): (Tx, Tx) -> bool {
    (a: Tx, b: Tx) => Cheaper(a, b, baseFee) || (!Cheaper(b, a, baseFee) && a.nonce > b.nonce)
  }

  lemma BeforeIsOrder(baseFee: Option<nat>)
    ensures IsOrder(Before(baseFee))
  {
  }

  /** The entries of the two heaps and the count of those believed stale. */
  datatype Entries = Entries(urgent: seq<Tx>, floating: seq<Tx>, stales: int) {
    ghost function Count(tx: Tx): nat {
      multiset(urgent)[tx] + multiset(floating)[tx]
    }

    ghost predicate Valid(baseFee: Option<nat>) {
      IsHeap(urgent, Before(baseFee)) && IsHeap(floating, Before(None))
    }
  }

  /** `a` and `b` hold the same entries but for the first of one heap, `tx`: it went on
      to the other heap or to `out`, or it was stale and is gone. */
  ghost predicate Demoted(a: Entries, b: Entries, remotes: set<Tx>) {
    && a.urgent != []
    && var tx := a.urgent[0];
    && multiset(a.urgent) == multiset{tx} + multiset(b.urgent)
    && |a.urgent| == 1 + |b.urgent|
    && if tx in remotes
       then multiset(b.floating) == multiset(a.floating) + multiset{tx} && |b.floating| == |a.floating| + 1
            && b.stales == a.stales
       else b.floating == a.floating && b.stales == a.stales - 1
  }

  ghost predicate Pulled(a: Entries, b: Entries, out: seq<Tx>, remotes: set<Tx>) {
    && a.floating != []
    && var tx := a.floating[0];
    && multiset(a.floating) == multiset{tx} + multiset(b.floating)
    && |a.floating| == 1 + |b.floating|
    && b.urgent == a.urgent
    && (if tx in remotes then out == [tx] && b.stales == a.stales else out == [] && b.stales == a.stales - 1)
  }

  /** Every entry of a pooled transaction that is not listed any more is in `drop`;
      stale entries may be gone, each counted off. */
  ghost predicate Conserved(was: Entries, now: Entries, drop: seq<Tx>, remotes: set<Tx>) {
    && (forall t :: t in remotes ==> now.Count(t) + multiset(drop)[t] == was.Count(t))
    && (forall t :: t !in remotes ==> t !in drop && now.Count(t) <= was.Count(t))
    && now.stales - |now.urgent| - |now.floating| - |drop| == was.stales - |was.urgent| - |was.floating|
  }

  /** The dropped entries are the cheapest: nothing still urgent is cheaper at the
      current base fee than what has left the urgent heap, nothing that floated all
      along is cheaper by fee cap than a dropped entry, and nothing that floats now
      is cheaper in both respects than a dropped entry that came from the urgent heap. */
  ghost predicate Cheapest(was: Entries, now: Entries, drop: seq<Tx>, baseFee: Option<nat>) {
    && (forall x :: x in now.urgent ==> x in was.urgent)
    && (forall x, y :: x in now.urgent && (y in now.floating || y in drop) && y !in was.floating ==>
          !Before(baseFee)(x, y))
    && (forall x :: x in now.floating ==> x in was.urgent || x in was.floating)
    && (forall x, y :: x in now.floating && x !in was.urgent && y in drop ==> !Before(None)(x, y))
    && (forall x, y :: x in now.floating && y in drop && y !in was.floating ==>
          !(Before(baseFee)(x, y) && Before(None)(x, y)))
  }

  /** `x` may wait while `y` is dropped: if it was not urgent it is not cheaper by fee cap, and if
      `y` did not float it is not cheaper than `y` in both respects. */
  ghost predicate Waits(was: Entries, x: Tx, y: Tx, baseFee: Option<nat>) {
    && (x !in was.urgent ==> !Before(None)(x, y))
    && (y !in was.floating ==> !(Before(baseFee)(x, y) && Before(None)(x, y)))
  }

  /** The cheaper were dropped first. */
  ghost predicate InTurn(was: Entries, drop: seq<Tx>, baseFee: Option<nat>) {
    forall i, j :: 0 <= i < j < |drop| ==> Waits(was, drop[j], drop[i], baseFee)
  }

  /** Whatever is still listed waits for what is dropped. */
  lemma CheapestWaits(was: Entries, now: Entries, drop: seq<Tx>, baseFee: Option<nat>, x: Tx, y: Tx)
    requires Cheapest(was, now, drop, baseFee) && (x in now.urgent || x in now.floating) && y in drop
    ensures Waits(was, x, y, baseFee)
  {
  }

  /** Pruning the heaps beforehand makes no difference to what is cheapest. */
  lemma CheapestPruned(was: Entries, pruned: Entries, now: Entries, drop: seq<Tx>, baseFee: Option<nat>)
    requires Cheapest(pruned, now, drop, baseFee) && InTurn(pruned, drop, baseFee)
    requires forall t :: t in pruned.urgent ==> t in was.urgent
    requires forall t :: t in pruned.floating ==> t in was.floating
    ensures Cheapest(was, now, drop, baseFee) && InTurn(was, drop, baseFee)
  {
    forall i, j | 0 <= i < j < |drop| ensures Waits(was, drop[j], drop[i], baseFee) {
      assert Waits(pruned, drop[j], drop[i], baseFee);
    }
  }

  lemma InTurnNext(was: Entries, now: Entries, drop: seq<Tx>, baseFee: Option<nat>, out: seq<Tx>)
    requires Cheapest(was, now, drop, baseFee) && InTurn(was, drop, baseFee)
    requires |out| <= 1 && forall x :: x in out ==> x in now.floating
    ensures InTurn(was, drop + out, baseFee)
  {
    var all := drop + out;
    forall i, j | 0 <= i < j < |all| ensures Waits(was, all[j], all[i], baseFee) {
      if j < |drop| {
        assert Waits(was, drop[j], drop[i], baseFee);
      } else {
        CheapestWaits(was, now, drop, baseFee, out[0], drop[i]);
      }
    }
  }

  lemma ConservedDemoted(was: Entries, a: Entries, b: Entries, drop: seq<Tx>, remotes: set<Tx>)
    requires Conserved(was, a, drop, remotes) && Demoted(a, b, remotes)
    ensures Conserved(was, b, drop, remotes)
  {
  }

  lemma ConservedPulled(was: Entries, a: Entries, b: Entries, drop: seq<Tx>, out: seq<Tx>, remotes: set<Tx>)
    requires Conserved(was, a, drop, remotes) && Pulled(a, b, out, remotes)
    ensures Conserved(was, b, drop + out, remotes)
  {
    var tx := a.floating[0];
    forall t ensures b.Count(t) == if t == tx then a.Count(t) - 1 else a.Count(t) {
      assert multiset(a.floating)[t] == multiset{tx}[t] + multiset(b.floating)[t];
    }
    assert multiset(drop + out) == multiset(drop) + multiset(out);
  }

  lemma CheapestDemoted(was: Entries, a: Entries, b: Entries, drop: seq<Tx>, baseFee: Option<nat>, remotes: set<Tx>)
    requires a.Valid(baseFee) && Cheapest(was, a, drop, baseFee) && Demoted(a, b, remotes)
    ensures Cheapest(was, b, drop, baseFee)
  {
    BeforeIsOrder(baseFee);
    AllLeast(a.urgent, Before(baseFee));
    SameElements(a.urgent, [a.urgent[0]] + b.urgent);
    if a.urgent[0] in remotes {
      SameElements(b.floating, a.floating + [a.urgent[0]]);
    }
  }

  lemma CheapestPulled(was: Entries, a: Entries, b: Entries, drop: seq<Tx>, out: seq<Tx>, baseFee: Option<nat>,
                       remotes: set<Tx>)
    requires a.Valid(baseFee) && Cheapest(was, a, drop, baseFee) && Pulled(a, b, out, remotes)
    ensures Cheapest(was, b, drop + out, baseFee)
  {
    BeforeIsOrder(None);
    AllLeast(a.floating, Before(None));
    SameElements(a.floating, [a.floating[0]] + b.floating);
  }

  lemma NoneTaken(was: Entries, baseFee: Option<nat>, remotes: set<Tx>)
    ensures Conserved(was, was, [], remotes) && Cheapest(was, was, [], baseFee)
  {
  }

  lemma OneMoreTaken(drop: seq<Tx>, out: seq<Tx>)
    requires |out| <= 1
    ensures SlotsOf(drop + out) == SlotsOf(drop) + SlotsOf(out)
    ensures if out == [] then drop + out == drop else (drop + out)[..|drop + out| - 1] == drop
  {
    if out != [] {
      assert (drop + out)[..|drop + out| - 1] == drop && out[..0] == [];
    } else {
      assert drop + out == drop;
    }
  }

  lemma SameElements(s: seq<Tx>, t: seq<Tx>)
    requires multiset(s) == multiset(t)
    ensures forall x :: x in s <==> x in t
  {
    forall x ensures x in s <==> x in t {
      assert x in s <==> x in multiset(s);
      assert x in t <==> x in multiset(t);
    }
  }

  /** A heap without the stale entries at its head. */
  ghost predicate Pruned(heap: seq<Tx>, rest: seq<Tx>, remotes: set<Tx>) {
    && (rest == [] || rest[0] in remotes)
    && (forall t :: t in remotes ==> multiset(rest)[t] == multiset(heap)[t])
    && multiset(rest) <= multiset(heap)
  }

  lemma PrunedMembers(heap: seq<Tx>, rest: seq<Tx>)
    requires multiset(rest) <= multiset(heap)
    ensures forall t :: t in rest ==> t in heap
  {
    forall t | t in rest ensures t in heap {
      assert t in multiset(rest) && t in multiset(heap);
    }
  }

  /** No entry is of a pooled transaction. */
  ghost predicate NoneLive(heap: seq<Tx>, remotes: set<Tx>) {
    forall x :: x in remotes ==> x !in heap
  }

  /** No pooled transaction of a heap pays less than `tx`. */
  ghost predicate NoneCheaper(heap: seq<Tx>, tx: Tx, fee: Option<nat>, remotes: set<Tx>) {
    forall x :: x in remotes && x in heap ==> !Cheaper(x, tx, fee)
  }

  lemma ConservedPruned(was: Entries, now: Entries, remotes: set<Tx>)
    requires was.urgent == now.urgent || Pruned(was.urgent, now.urgent, remotes)
    requires was.floating == now.floating || Pruned(was.floating, now.floating, remotes)
    requires now.stales - |now.urgent| - |now.floating| == was.stales - |was.urgent| - |was.floating|
    ensures Conserved(was, now, [], remotes)
  {
  }

  /** Where a heap starts with a pooled transaction, that one decides whether any pooled
      transaction of the heap is cheaper than `tx`. */
  lemma HeadDecides(heap: seq<Tx>, rest: seq<Tx>, tx: Tx, fee: Option<nat>, remotes: set<Tx>)
    requires IsHeap(rest, Before(fee)) && Pruned(heap, rest, remotes)
    ensures rest == [] <==> NoneLive(heap, remotes)
    ensures rest == [] || !Cheaper(rest[0], tx, fee) <==> NoneCheaper(heap, tx, fee, remotes)
  {
    forall x | x in remotes ensures x in rest <==> x in heap {
      assert x in rest <==> x in multiset(rest);
      assert x in heap <==> x in multiset(heap);
    }
    if rest != [] {
      assert rest[0] in rest;
      BeforeIsOrder(fee);
      AllLeast(rest, Before(fee));
    }
  }

  /** The entries of pooled transactions. */
  function LiveOf(txs: seq<Tx>, remotes: set<Tx>): (live: seq<Tx>)
    ensures forall x :: x in live ==> x in remotes
  {
    if txs == [] then [] else
      var last := txs[|txs| - 1];
      LiveOf(txs[..|txs| - 1], remotes) + if last in remotes then [last] else []
  }

  function Live(e: Entries, remotes: set<Tx>): seq<Tx> {
    LiveOf(e.urgent, remotes) + LiveOf(e.floating, remotes)
  }

  lemma {:induction false} LiveOfCount(txs: seq<Tx>, remotes: set<Tx>, t: Tx)
    ensures multiset(LiveOf(txs, remotes))[t] == if t in remotes then multiset(txs)[t] else 0
  {
    if txs != [] {
      LiveOfCount(txs[..|txs| - 1], remotes, t);
      assert txs == txs[..|txs| - 1] + [txs[|txs| - 1]];
    }
  }

  lemma LiveCount(e: Entries, remotes: set<Tx>, t: Tx)
    ensures multiset(Live(e, remotes))[t] == if t in remotes then e.Count(t) else 0
  {
    LiveOfCount(e.urgent, remotes, t);
    LiveOfCount(e.floating, remotes, t);
  }

  lemma {:induction false} SlotsOfJoined(a: seq<Tx>, b: seq<Tx>)
    ensures SlotsOf(a + b) == SlotsOf(a) + SlotsOf(b)
  {
    if b == [] {
      assert a + b == a;
    } else {
      assert (a + b)[..|a + b| - 1] == a + b[..|b| - 1];
      SlotsOfJoined(a, b[..|b| - 1]);
    }
  }

  lemma SlotsOfRemoved(a: seq<Tx>, tx: Tx, b: seq<Tx>)
    ensures SlotsOf(a + [tx] + b) == SlotsOf(a + b) + NumSlots(tx)
  {
    SlotsOfJoined(a + [tx], b);
    SlotsOfJoined(a, [tx]);
    SlotsOfJoined(a, b);
    assert SlotsOf([tx]) == SlotsOf([tx][..0]) + NumSlots(tx);
  }

  lemma SameRest(init: seq<Tx>, left: seq<Tx>, right: seq<Tx>, last: Tx)
    requires multiset(init + [last]) == multiset(left + [last] + right)
    ensures multiset(init) == multiset(left + right)
  {
    assert multiset(init) == multiset(init + [last]) - multiset{last};
  }

  /** The slots do not depend on the order. */
  lemma {:induction false} SlotsOfSame(a: seq<Tx>, b: seq<Tx>)
    requires multiset(a) == multiset(b)
    ensures SlotsOf(a) == SlotsOf(b)
  {
    if a == [] {
      assert |multiset(b)| == 0;
    } else {
      var init, last := a[..|a| - 1], a[|a| - 1];
      assert a == init + [last];
      assert last in multiset(b);
      var k :| 0 <= k < |b| && b[k] == last;
      var left, right := b[..k], b[k + 1..];
      assert b == left + [last] + right;
      SlotsOfRemoved(left, last, right);
      SameRest(init, left, right, last);
      SlotsOfSame(init, left + right);
    }
  }

  lemma ConservedSlots(was: Entries, now: Entries, drop: seq<Tx>, remotes: set<Tx>)
    requires Conserved(was, now, drop, remotes)
    ensures SlotsOf(Live(was, remotes)) == SlotsOf(Live(now, remotes)) + SlotsOf(drop)
  {
    forall t ensures multiset(Live(was, remotes))[t] == multiset(Live(now, remotes) + drop)[t] {
      LiveCount(was, remotes, t);
      LiveCount(now, remotes, t);
      assert multiset(Live(now, remotes) + drop)[t] == multiset(Live(now, remotes))[t] + multiset(drop)[t];
    }
    assert multiset(Live(was, remotes)) == multiset(Live(now, remotes) + drop);
    SlotsOfSame(Live(was, remotes), Live(now, remotes) + drop);
    SlotsOfJoined(Live(now, remotes), drop);
  }

  lemma ConservedPutBack(was: Entries, a: Entries, b: Entries, drop: seq<Tx>, remotes: set<Tx>)
    requires Conserved(was, a, drop, remotes)
    requires multiset(b.urgent) == multiset(a.urgent) + multiset(drop) && |b.urgent| == |a.urgent| + |drop|
    requires b.floating == a.floating && b.stales == a.stales
    ensures Conserved(was, b, [], remotes)
  {
  }

  /** Where every transaction is listed at most once, none is dropped twice. */
  lemma ConservedDistinct(was: Entries, now: Entries, drop: seq<Tx>, remotes: set<Tx>)
    requires Conserved(was, now, drop, remotes)
    requires forall t :: was.Count(t) <= 1
    ensures Distinct(drop)
  {
    forall i, j | 0 <= i < j < |drop| ensures drop[i] != drop[j] {
      assert drop == drop[..j] + [drop[j]] + drop[j + 1..];
      assert multiset(drop) == multiset(drop[..j]) + multiset{drop[j]} + multiset(drop[j + 1..]);
      assert drop[i] in drop[..j];
      assert was.Count(drop[j]) <= 1;
    }
  }

  class TxPricedList {
    const all: TxLookup
    var urgent: seq<Tx>
    var floating: seq<Tx>
    var baseFee: Option<nat>
    var stales: int

    ghost predicate Valid()
      reads this
    {
      Listed().Valid(baseFee)
    }

    ghost function Listed(): Entries
      reads this
    {
      Entries(urgent, floating, stales)
    }

    constructor (all: TxLookup)
      ensures Valid() && this.all == all && Listed() == Entries([], [], 0) && baseFee == None
    {
      this.all := all;
      urgent, floating, baseFee, stales := [], [], None, 0;
    }

    /** Lists a new remote transaction; local ones are never evicted. */
    method Put(tx: Tx, local: bool)
      requires Valid()
      modifies this
      ensures Valid() && baseFee == old(baseFee)
      ensures floating == old(floating) && stales == old(stales)
      ensures multiset(urgent) == multiset(old(urgent)) + (if local then multiset{} else multiset{tx})
      ensures |urgent| == |old(urgent)| + if local then 0 else 1
    {
      if local {
        return;
      }
      BeforeIsOrder(baseFee);
      PushHeap(urgent, tx, Before(baseFee));
      assert |multiset(Push(urgent, tx, Before(baseFee)))| == |urgent| + 1;
      urgent := Push(urgent, tx, Before(baseFee));
    }

    method PopUrgent() returns (tx: Tx)
      requires Valid() && urgent != []
      modifies this`urgent
      ensures Valid() && |urgent| == |old(urgent)| - 1
      ensures multiset(old(urgent)) == multiset{tx} + multiset(urgent)
      ensures tx == old(urgent)[0]
    {
      BeforeIsOrder(baseFee);
      PopHeap(urgent, Before(baseFee), false);
      tx := urgent[0];
      urgent := Pop(urgent, Before(baseFee), false);
    }

    method PopFloating() returns (tx: Tx)
      requires Valid() && floating != []
      modifies this`floating
      ensures Valid() && |floating| == |old(floating)| - 1
      ensures multiset(old(floating)) == multiset{tx} + multiset(floating)
      ensures tx == old(floating)[0]
    {
      BeforeIsOrder(None);
      PopHeap(floating, Before(None), false);
      tx := floating[0];
      floating := Pop(floating, Before(None), false);
    }

    method PushFloating(tx: Tx)
      requires Valid()
      modifies this`floating
      ensures Valid() && |floating| == |old(floating)| + 1
      ensures multiset(floating) == multiset(old(floating)) + multiset{tx}
    {
      BeforeIsOrder(None);
      PushHeap(floating, tx, Before(None));
      assert |multiset(Push(floating, tx, Before(None)))| == |floating| + 1;
      floating := Push(floating, tx, Before(None));
    }

    /** Moves the cheapest urgent entry on to the floating heap, unless it is stale. */
    method Demote()
      requires Valid() && urgent != []
      modifies this
      ensures Valid() && baseFee == old(baseFee)
      ensures Demoted(old(Listed()), Listed(), all.remotes)
    {
      var tx := PopUrgent();
      if tx !in all.remotes {
        stales := stales - 1;
      } else {
        PushFloating(tx);
      }
    }

    /** Takes the cheapest entry off the floating heap and reports it unless it is stale. */
    method Pull() returns (out: seq<Tx>)
      requires Valid() && floating != []
      modifies this
      ensures Valid() && baseFee == old(baseFee)
      ensures Pulled(old(Listed()), Listed(), out, all.remotes)
    {
      var tx := PopFloating();
      if tx !in all.remotes {
        stales := stales - 1;
        out := [];
      } else {
        out := [tx];
      }
    }

    /** Whether the urgent heap has more than its share of the entries. */
    method ManyUrgent() returns (many: bool)
      ensures many <==> |urgent| > 4 * |floating|
    {
      many := |urgent| * FLOATING_RATIO > |floating| * URGENT_RATIO || FLOATING_RATIO == 0;
    }

    method DemoteNext(ghost was: Entries, ghost drop: seq<Tx>)
      requires Valid() && urgent != []
      requires Conserved(was, Listed(), drop, all.remotes) && Cheapest(was, Listed(), drop, baseFee)
      modifies this
      ensures Valid() && baseFee == old(baseFee)
      ensures 2 * |urgent| + |floating| < old(2 * |urgent| + |floating|)
      ensures Conserved(was, Listed(), drop, all.remotes) && Cheapest(was, Listed(), drop, baseFee)
    {
      Demote();
      ConservedDemoted(was, old(Listed()), Listed(), drop, all.remotes);
      CheapestDemoted(was, old(Listed()), Listed(), drop, baseFee, all.remotes);
    }

    method PullNext(ghost was: Entries, ghost drop: seq<Tx>) returns (out: seq<Tx>)
      requires Valid() && floating != []
      requires Conserved(was, Listed(), drop, all.remotes) && Cheapest(was, Listed(), drop, baseFee)
      requires InTurn(was, drop, baseFee)
      modifies this
      ensures Valid() && baseFee == old(baseFee) && |out| <= 1 && InTurn(was, drop + out, baseFee)
      ensures 2 * |urgent| + |floating| < old(2 * |urgent| + |floating|)
      ensures Conserved(was, Listed(), drop + out, all.remotes) && Cheapest(was, Listed(), drop + out, baseFee)
    {
      out := Pull();
      ConservedPulled(was, old(Listed()), Listed(), drop, out, all.remotes);
      CheapestPulled(was, old(Listed()), Listed(), drop, out, baseFee, all.remotes);
      InTurnNext(was, old(Listed()), drop, baseFee, out);
    }

    /** Pops entries until enough slots are found or nothing is left. */
    method TakeCheapest(slots: int) returns (drop: seq<Tx>)
      requires Valid()
      modifies this
      ensures Valid() && baseFee == old(baseFee)
      ensures Conserved(old(Listed()), Listed(), drop, all.remotes)
      ensures Cheapest(old(Listed()), Listed(), drop, baseFee) && InTurn(old(Listed()), drop, baseFee)
      ensures SlotsOf(drop) < slots ==> urgent == floating == []
      ensures drop != [] ==> SlotsOf(drop[..|drop| - 1]) < slots
    {
      ghost var was := Listed();
      NoneTaken(was, baseFee, all.remotes);
      drop := [];
      var left := slots;
      while left > 0
        invariant Valid() && baseFee == old(baseFee)
        invariant Conserved(was, Listed(), drop, all.remotes) && Cheapest(was, Listed(), drop, baseFee)
        invariant InTurn(was, drop, baseFee)
        invariant left == slots - SlotsOf(drop)
        invariant drop != [] ==> SlotsOf(drop[..|drop| - 1]) < slots
        decreases 2 * |urgent| + |floating|
      {
        var demote := ManyUrgent();
        if demote {
          DemoteNext(was, drop);
        } else {
          if floating == [] {
            break;
          }
          var out := PullNext(was, drop);
          OneMoreTaken(drop, out);
          drop := drop + out;
          left := left - SlotsOf(out);
        }
      }
    }

    /** Gives entries back to the urgent heap. */
    method PutBack(txs: seq<Tx>)
      requires Valid()
      modifies this
      ensures Valid() && baseFee == old(baseFee)
      ensures floating == old(floating) && stales == old(stales)
      ensures multiset(urgent) == multiset(old(urgent)) + multiset(txs)
      ensures |urgent| == |old(urgent)| + |txs|
    {
      var i: nat := 0;
      while i < |txs|
        invariant i <= |txs|
        invariant Valid() && baseFee == old(baseFee)
        invariant floating == old(floating) && stales == old(stales)
        invariant multiset(urgent) == multiset(old(urgent)) + multiset(txs[..i])
        invariant |urgent| == |old(urgent)| + i
      {
        Put(txs[i], false);
        assert txs[..i + 1] == txs[..i] + [txs[i]];
        i := i + 1;
      }
      assert txs[..i] == txs;
    }

    /** Takes out the cheapest remote transactions to free a number of slots, but no more
        of them than that needs. It fails just when it must find all of the slots and the
        listed transactions do not hold as many; then no entry of theirs is lost. */
    method Discard(slots: int, force: bool) returns (drop: seq<Tx>, ok: bool)
      requires Valid()
      modifies this
      ensures Valid() && baseFee == old(baseFee)
      ensures ok <==> force || slots <= SlotsOf(Live(old(Listed()), all.remotes))
      ensures Conserved(old(Listed()), Listed(), drop, all.remotes)
      ensures !ok ==> drop == []
      ensures ok ==> Cheapest(old(Listed()), Listed(), drop, baseFee) && InTurn(old(Listed()), drop, baseFee)
      ensures ok && SlotsOf(drop) < slots ==> urgent == floating == []
      ensures ok && slots <= SlotsOf(Live(old(Listed()), all.remotes)) ==> slots <= SlotsOf(drop)
      ensures drop != [] ==> SlotsOf(drop[..|drop| - 1]) < slots
      ensures (forall t :: old(Listed()).Count(t) <= 1) ==> Distinct(drop) && SlotsOf(drop) == SumSlots(Elements(drop))
    {
      drop := TakeCheapest(slots);
      ConservedSlots(old(Listed()), Listed(), drop, all.remotes);
      if SlotsOf(drop) < slots && !force {
        label before:
        PutBack(drop);
        ConservedPutBack(old(Listed()), old@before(Listed()), Listed(), drop, all.remotes);
        drop := [];
        ok := false;
      } else {
        ok := true;
      }
      if forall t :: old(Listed()).Count(t) <= 1 {
        ConservedDistinct(old(Listed()), Listed(), drop, all.remotes);
        SlotsOfDistinct(drop);
      }
    }

    /** The remote transactions of the pool in some order. */
    method ListRemotes() returns (txs: seq<Tx>)
      ensures multiset(txs) == multiset(all.remotes)
    {
      var todo := all.remotes;
      txs := [];
      while todo != {}
        invariant todo <= all.remotes
        invariant multiset(txs) + multiset(todo) == multiset(all.remotes)
        decreases todo
      {
        var tx :| tx in todo;
        assert multiset(todo) == multiset(todo - {tx}) + multiset{tx};
        todo := todo - {tx};
        txs := txs + [tx];
      }
    }

    /** Splits the cheapest entries off the urgent heap. */
    method SplitOff(count: nat) returns (low: seq<Tx>)
      requires Valid() && count <= |urgent|
      modifies this`urgent
      ensures Valid() && |low| == count && |urgent| == |old(urgent)| - count
      ensures multiset(low) + multiset(urgent) == multiset(old(urgent))
      ensures forall x, y :: x in low && y in urgent ==> !Before(baseFee)(y, x)
    {
      low := [];
      while |low| < count
        invariant Valid() && |low| <= count && |urgent| == |old(urgent)| - |low|
        invariant multiset(low) + multiset(urgent) == multiset(old(urgent))
        invariant forall x, y :: x in low && y in urgent ==> !Before(baseFee)(y, x)
      {
        label before:
        BeforeIsOrder(baseFee);
        AllLeast(urgent, Before(baseFee));
        var tx := PopUrgent();
        SameElements(old@before(urgent), [tx] + urgent);
        low := low + [tx];
      }
    }

    /** Lists the remote transactions afresh, each once, the cheapest fifth of them floating. */
    method Reheap()
      modifies this
      ensures Valid() && baseFee == old(baseFee) && stales == 0
      ensures multiset(urgent) + multiset(floating) == multiset(all.remotes)
      ensures |floating| == |all.remotes| / 5
      ensures forall x, y :: x in floating && y in urgent ==> !Before(baseFee)(y, x)
    {
      stales := 0;
      var txs := ListRemotes();
      assert |txs| == |multiset(txs)| == |all.remotes|;
      BeforeIsOrder(baseFee);
      InitHeap(txs, Before(baseFee), false);
      urgent, floating := Init(txs, Before(baseFee), false), [];
      assert |urgent| == |multiset(urgent)|;
      var low := SplitOff(|urgent| * FLOATING_RATIO / (URGENT_RATIO + FLOATING_RATIO));
      BeforeIsOrder(None);
      InitHeap(low, Before(None), false);
      floating := Init(low, Before(None), false);
      SameElements(low, floating);
      assert |low| == |multiset(low)| == |floating|;
    }

    /** Counts entries gone stale and starts afresh once they are more than a quarter. */
    method Removed(count: nat)
      requires Valid()
      modifies this
      ensures Valid() && baseFee == old(baseFee)
      ensures
        if old(stales) + count <= (|old(urgent)| + |old(floating)|) / 4 then
          Listed() == old(Listed()).(stales := old(stales) + count)
        else
          && stales == 0 && multiset(urgent) + multiset(floating) == multiset(all.remotes)
          && |floating| == |all.remotes| / 5
          && forall x, y :: x in floating && y in urgent ==> !Before(baseFee)(y, x)
    {
      stales := stales + count;
      if stales <= (|urgent| + |floating|) / 4 {
        return;
      }
      Reheap();
    }

    method SetBaseFee(fee: Option<nat>)
      modifies this
      ensures Valid() && baseFee == fee && stales == 0
      ensures multiset(urgent) + multiset(floating) == multiset(all.remotes)
      ensures |floating| == |all.remotes| / 5
      ensures forall x, y :: x in floating && y in urgent ==> !Before(fee)(y, x)
    {
      baseFee := fee;
      Reheap();
    }

    /** Pops the stale entries off the head of a heap. */
    method DropStale(heap: seq<Tx>, fee: Option<nat>) returns (rest: seq<Tx>, gone: nat)
      requires IsHeap(heap, Before(fee))
      ensures IsHeap(rest, Before(fee)) && |rest| + gone == |heap| && Pruned(heap, rest, all.remotes)
    {
      rest, gone := heap, 0;
      while rest != [] && rest[0] !in all.remotes
        invariant IsHeap(rest, Before(fee)) && |rest| + gone == |heap|
        invariant forall t :: t in all.remotes ==> multiset(rest)[t] == multiset(heap)[t]
        invariant multiset(rest) <= multiset(heap)
        decreases |rest|
      {
        BeforeIsOrder(fee);
        PopHeap(rest, Before(fee), false);
        rest, gone := Pop(rest, Before(fee), false), gone + 1;
      }
    }

    /** Whether a transaction pays no more than any listed transaction of the pool, and
        there is one. Stale entries play no part. */
    method Underpriced(tx: Tx) returns (under: bool)
      requires Valid()
      modifies this
      ensures Valid() && baseFee == old(baseFee)
      ensures Conserved(old(Listed()), Listed(), [], all.remotes)
      ensures forall t :: t in urgent ==> t in old(urgent)
      ensures forall t :: t in floating ==> t in old(floating)
      ensures under <==>
        && !(NoneLive(old(urgent), all.remotes) && NoneLive(old(floating), all.remotes))
        && NoneCheaper(old(urgent), tx, baseFee, all.remotes)
        && NoneCheaper(old(floating), tx, None, all.remotes)
    {
      PruneUrgent();
      HeadDecides(old(urgent), urgent, tx, baseFee, all.remotes);
      under := urgent == [] || !Cheaper(urgent[0], tx, baseFee);
      if under {
        PruneFloating();
        HeadDecides(old(floating), floating, tx, None, all.remotes);
        under := (floating == [] || !Cheaper(floating[0], tx, None)) && (urgent != [] || floating != []);
      }
      ConservedPruned(old(Listed()), Listed(), all.remotes);
      PrunedMembers(old(urgent), urgent);
      PrunedMembers(old(floating), floating);
    }

    method PruneUrgent()
      requires Valid()
      modifies this`urgent, this`stales
      ensures Valid() && Pruned(old(urgent), urgent, all.remotes) && stales - |urgent| == old(stales) - |old(urgent)|
    {
      var rest, gone := DropStale(urgent, baseFee);
      urgent, stales := rest, stales - gone;
    }

    method PruneFloating()
      requires Valid()
      modifies this`floating, this`stales
      ensures Valid() && Pruned(old(floating), floating, all.remotes)
      ensures stales - |floating| == old(stales) - |old(floating)|
    {
      var rest, gone := DropStale(floating, None);
      floating, stales := rest, stales - gone;
    }
  }
}
