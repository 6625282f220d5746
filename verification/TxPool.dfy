/** The transaction pool: per-sender pending and queued lists, the table of all
    transactions and the virtual nonces, kept in agreement by every operation. */
module Pool {
  import opened Transactions
  import opened Lists
  import opened Accounts
  import opened Arrivals
  import opened Lookup
  import opened Noncer

  function ItemsOf(lists: map<Address, Items>, addr: Address): Items {
    if addr in lists then lists[addr] else map[]
  }

  /** Files a list under its sender; an empty list is taken out. */
  function Filed(lists: map<Address, Items>, addr: Address, items: Items): map<Address, Items> {
    if items == map[] then lists - {addr} else lists[addr := items]
  }

  ghost predicate Owned(items: Items, addr: Address) {
    forall n :: n in items ==> items[n].nonce == n && items[n].sender == addr
  }

  ghost predicate NoneEmpty(lists: map<Address, Items>) {
    forall a :: a in lists ==> lists[a] != map[]
  }

  /** One sender's lists are filed correctly, apart from each other, and agree
      with the table of all transactions. */
  ghost predicate Listed(v: View, addr: Address, all: set<Tx>) {
    && Owned(v.pending, addr)
    && Owned(v.queued, addr)
    && Separate(v)
    && forall tx: Tx :: tx.sender == addr ==> (tx in all <==> Holds(v, tx))
  }

  lemma DroppedListed(v: View, addr: Address, all: set<Tx>, tx: Tx)
    requires Listed(v, addr, all)
    requires tx in all && tx.sender == addr
    ensures Listed(Dropped(v, tx), addr, all - {tx})
  {
  }

  lemma ListedElsewhere(v: View, addr: Address, all: set<Tx>, all': set<Tx>)
    requires Listed(v, addr, all)
    requires forall tx: Tx :: tx.sender == addr ==> (tx in all <==> tx in all')
    ensures Listed(v, addr, all')
  {
  }

  /** The view part way through promoting a run. */
  ghost function WithBelow(v: View, run: Items, bound: nat): View {
    v.(pending := v.pending + Below(run, bound), nonce := if bound == 0 then v.nonce else bound)
  }

  lemma WithBelowNone(v: View, run: Items)
    ensures WithBelow(v, run, 0) == v
  {
  }

  lemma WithBelowNext(v: View, run: Items, bound: nat, n: nat)
    requires Keyed(run)
    requires IsLowest(From(run, bound), n)
    ensures n in run && n !in Below(run, bound) && From(run, n + 1).Keys < From(run, bound).Keys
    ensures PutPending(WithBelow(v, run, bound), run[n]).(nonce := n + 1) == WithBelow(v, run, n + 1)
  {
    BelowNext(run, bound, n);
    WithUnion(v.pending, Below(run, bound), run[n]);
  }

  lemma WithBelowAll(v: View, run: Items, bound: nat)
    requires From(run, bound) == map[]
    requires bound == 0 || bound - 1 in run
    ensures WithBelow(v, run, bound) == WithRun(v, run)
  {
    BelowAll(run, bound);
  }

  lemma ForgottenListed(v: View, addr: Address, all: set<Tx>, drop: Items)
    requires Listed(v, addr, all)
    requires Within(drop, v.queued)
    ensures Listed(v.(queued := Without(v.queued, drop)), addr, all - drop.Values)
  {
  }

  lemma MovedListed(v: View, addr: Address, all: set<Tx>, run: Items)
    requires Listed(v, addr, all)
    requires Within(run, v.queued)
    ensures Listed(Moved(v, run), addr, all)
  {
  }

  lemma ForgottenPendingListed(v: View, addr: Address, all: set<Tx>, drop: Items)
    requires Listed(v, addr, all)
    requires Within(drop, v.pending)
    ensures Listed(v.(pending := Without(v.pending, drop)), addr, all - drop.Values)
  {
  }

  ghost function MovedBack(v: View, items: Items): View {
    v.(pending := Without(v.pending, items), queued := v.queued + items)
  }

  lemma MovedBackListed(v: View, addr: Address, all: set<Tx>, items: Items)
    requires Listed(v, addr, all)
    requires Within(items, v.pending)
    ensures Listed(MovedBack(v, items), addr, all)
  {
  }

  ghost function SumLens(senders: set<Address>, lists: map<Address, Items>): nat {
    if senders == {} then 0 else
      var a :| a in senders;
      |ItemsOf(lists, a)| + SumLens(senders - {a}, lists)
  }

  /** The number of transactions in a group of lists. */
  ghost function Total(lists: map<Address, Items>): nat {
    SumLens(lists.Keys, lists)
  }

  lemma {:induction false} SumLensRemove(senders: set<Address>, lists: map<Address, Items>, addr: Address)
    requires addr in senders
    ensures SumLens(senders, lists) == |ItemsOf(lists, addr)| + SumLens(senders - {addr}, lists)
  {
    var a :| a in senders && SumLens(senders, lists) == |ItemsOf(lists, a)| + SumLens(senders - {a}, lists);
    if a != addr {
      SumLensRemove(senders - {a}, lists, addr);
      SumLensRemove(senders - {addr}, lists, a);
      assert senders - {a} - {addr} == senders - {addr} - {a};
    }
  }

  lemma {:induction false} SumLensSame(senders: set<Address>, lists: map<Address, Items>, lists': map<Address, Items>)
    requires forall a :: a in senders ==> ItemsOf(lists, a) == ItemsOf(lists', a)
    ensures SumLens(senders, lists) == SumLens(senders, lists')
  {
    if senders != {} {
      var a :| a in senders;
      SumLensRemove(senders, lists, a);
      SumLensRemove(senders, lists', a);
      SumLensSame(senders - {a}, lists, lists');
    }
  }

  lemma TotalWithout(lists: map<Address, Items>, addr: Address)
    ensures Total(lists) == |ItemsOf(lists, addr)| + SumLens(lists.Keys - {addr}, lists)
  {
    if addr in lists {
      SumLensRemove(lists.Keys, lists, addr);
    } else {
      assert lists.Keys - {addr} == lists.Keys;
    }
  }

  lemma TotalChange(lists: map<Address, Items>, lists': map<Address, Items>, addr: Address)
    requires NoneEmpty(lists) && NoneEmpty(lists')
    requires forall a :: a != addr ==> ItemsOf(lists, a) == ItemsOf(lists', a)
    ensures Total(lists) - |ItemsOf(lists, addr)| == Total(lists') - |ItemsOf(lists', addr)|
  {
    TotalWithout(lists, addr);
    TotalWithout(lists', addr);
    forall a | a != addr ensures a in lists <==> a in lists' {
      assert ItemsOf(lists, a) == ItemsOf(lists', a);
    }
    assert lists.Keys - {addr} == lists'.Keys - {addr};
    SumLensSame(lists.Keys - {addr}, lists, lists');
  }

  lemma {:induction false} SumLensRound(
      senders: set<Address>, addrs: set<Address>, lists: map<Address, Items>, lists': map<Address, Items>)
    requires addrs <= senders
    requires forall a :: a in senders ==> |ItemsOf(lists', a)| == |ItemsOf(lists, a)| - (if a in addrs then 1 else 0)
    ensures SumLens(senders, lists') == SumLens(senders, lists) - |addrs|
  {
    if senders != {} {
      var a :| a in senders;
      SumLensRemove(senders, lists, a);
      SumLensRemove(senders, lists', a);
      SumLensRound(senders - {a}, addrs - {a}, lists, lists');
    }
  }

  lemma {:induction false} SumLensMore(senders: set<Address>, more: set<Address>, lists: map<Address, Items>)
    requires more !! lists.Keys && senders !! more
    ensures SumLens(senders + more, lists) == SumLens(senders, lists)
  {
    if more == {} {
      assert senders + more == senders;
    } else {
      var a :| a in more;
      SumLensRemove(senders + more, lists, a);
      assert senders + more - {a} == senders + (more - {a});
      SumLensMore(senders, more - {a}, lists);
    }
  }

  ghost predicate OneFewer(addrs: set<Address>, lists: map<Address, Items>, lists': map<Address, Items>) {
    forall a :: |ItemsOf(lists', a)| == |ItemsOf(lists, a)| - (if a in addrs then 1 else 0)
  }

  lemma OneFewerKeys(addrs: set<Address>, lists: map<Address, Items>, lists': map<Address, Items>)
    requires NoneEmpty(lists')
    requires OneFewer(addrs, lists, lists')
    ensures addrs <= lists.Keys && lists'.Keys <= lists.Keys
  {
  }

  /** Senders without a list add nothing. */
  lemma TotalOver(senders: set<Address>, lists: map<Address, Items>)
    requires lists.Keys <= senders
    ensures SumLens(senders, lists) == Total(lists)
  {
    var gone := senders - lists.Keys;
    SumLensMore(lists.Keys, gone, lists);
    assert lists.Keys + gone == senders;
  }

  /** Dropping one transaction of each of some senders shrinks the total by as many. */
  lemma TotalRound(addrs: set<Address>, lists: map<Address, Items>, lists': map<Address, Items>)
    requires NoneEmpty(lists')
    requires OneFewer(addrs, lists, lists')
    ensures Total(lists') == Total(lists) - |addrs|
  {
    OneFewerKeys(addrs, lists, lists');
    SumLensRound(lists.Keys, addrs, lists, lists');
    TotalOver(lists.Keys, lists');
  }

  lemma {:induction false} ValuesSize(items: Items)
    requires Keyed(items)
    ensures |items.Values| == |items|
    decreases |items|
  {
    if items != map[] {
      var n :| n in items;
      var rest := items - {n};
      ValuesSize(rest);
      assert items == rest[n := items[n]];
      assert items.Values == rest.Values + {items[n]};
    }
  }

  /** A group of lists has no more transactions than the table it draws from. */
  lemma {:induction false} SumLensWithin(senders: set<Address>, lists: map<Address, Items>, txs: set<Tx>)
    requires forall a :: a in senders ==> Owned(ItemsOf(lists, a), a) && ItemsOf(lists, a).Values <= txs
    ensures SumLens(senders, lists) <= |txs|
    decreases senders
  {
    if senders != {} {
      var a :| a in senders;
      var mine := ItemsOf(lists, a).Values;
      SumLensRemove(senders, lists, a);
      ValuesSize(ItemsOf(lists, a));
      forall b | b in senders - {a} ensures ItemsOf(lists, b).Values <= txs - mine {
        assert forall tx :: tx in ItemsOf(lists, b).Values ==> tx.sender == b;
        assert forall tx :: tx in mine ==> tx.sender == a;
      }
      SumLensWithin(senders - {a}, lists, txs - mine);
    }
  }

  lemma {:induction false} SumLensUnion(some: set<Address>, others: set<Address>, lists: map<Address, Items>)
    requires some !! others
    ensures SumLens(some + others, lists) == SumLens(some, lists) + SumLens(others, lists)
    decreases some
  {
    if some == {} {
      assert some + others == others;
    } else {
      var a :| a in some;
      var rest, all := some - {a}, some + others;
      assert all - {a} == rest + others;
      SumLensUnion(rest, others, lists);
      SumLensRemove(some, lists, a);
      SumLensRemove(all, lists, a);
    }
  }

  /** The lists of some of the senders. */
  function Only(lists: map<Address, Items>, senders: set<Address>): map<Address, Items> {
    map a | a in lists && a in senders :: lists[a]
  }

  lemma TotalSplit(lists: map<Address, Items>, senders: set<Address>)
    ensures Total(lists) == Total(Only(lists, senders)) + Total(lists - senders)
  {
    var some, others := Only(lists, senders), lists - senders;
    assert lists.Keys == some.Keys + others.Keys;
    SumLensUnion(some.Keys, others.Keys, lists);
    SumLensSame(some.Keys, lists, some);
    SumLensSame(others.Keys, lists, others);
  }

  /** Where some senders keep what they have, all that is lost is lost by the others. */
  lemma RestLoss(lists: map<Address, Items>, lists': map<Address, Items>, senders: set<Address>)
    requires NoneEmpty(lists) && NoneEmpty(lists')
    requires forall a :: a in senders ==> ItemsOf(lists, a) == ItemsOf(lists', a)
    ensures Total(lists) - Total(lists') == Total(lists - senders) - Total(lists' - senders)
  {
    TotalSplit(lists, senders);
    TotalSplit(lists', senders);
    SameLists(Only(lists, senders), Only(lists', senders));
  }

  /** Always true; naming a sender this way brings up what is known of it. */
  ghost predicate Sender(a: Address) {
    true
  }

  /** A priority queue gives up an entry of the highest priority. */
  lemma {:induction false} HighestPriority(spammers: map<Address, nat>) returns (top: Address)
    requires spammers != map[]
    ensures top in spammers && forall a :: a in spammers ==> spammers[a] <= spammers[top]
    decreases |spammers|
  {
    var a :| a in spammers;
    var rest := spammers - {a};
    assert forall b :: b in spammers && b != a ==> b in rest;
    if rest == map[] {
      top := a;
    } else {
      top := HighestPriority(rest);
      if spammers[top] < spammers[a] {
        top := a;
      }
    }
  }

  lemma ReplacedListed(v: View, addr: Address, all: set<Tx>, tx: Tx)
    requires Listed(v, addr, all)
    requires tx.sender == addr && tx !in all && tx.nonce in v.pending
    ensures Listed(PutPending(v, tx), addr, all - {v.pending[tx.nonce]} + {tx})
  {
  }

  lemma QueuedListed(v: View, addr: Address, all: set<Tx>, tx: Tx)
    requires Listed(v, addr, all)
    requires tx.sender == addr && tx !in all && tx.nonce !in v.pending
    ensures Listed(PutQueued(v, tx), addr, all - (if tx.nonce in v.queued then {v.queued[tx.nonce]} else {}) + {tx})
  {
  }

  lemma RivalsOf(v: View, addr: Address, all: set<Tx>, tx: Tx)
    requires Listed(v, addr, all) && tx.sender == addr
    ensures Rivals(all, tx) ==
              if tx.nonce in v.pending then {v.pending[tx.nonce]}
              else if tx.nonce in v.queued then {v.queued[tx.nonce]} else {}
  {
  }

  lemma {:induction false} LatestBeat(addrs: set<Address>, beats: Address -> nat) returns (latest: Address)
    requires addrs != {}
    ensures latest in addrs && forall a :: a in addrs ==> beats(a) <= beats(latest)
    decreases addrs
  {
    latest :| latest in addrs;
    if addrs != {latest} {
      var other := LatestBeat(addrs - {latest}, beats);
      if beats(latest) < beats(other) {
        latest := other;
      }
    }
  }

  lemma {:induction false} SubsetSize<T>(part: set<T>, whole: set<T>)
    requires part <= whole
    ensures |part| <= |whole|
    decreases part
  {
    if part != {} {
      var x :| x in part;
      SubsetSize(part - {x}, whole - {x});
    }
  }

  /** Within the limit for pending transactions, or every remote sender within its guarantee. */
  ghost predicate WithinSlots(pending: map<Address, Items>, locals: set<Address>, config: Config) {
    || Total(pending) <= config.globalSlots
    || forall a {:trigger Sender(a)} :: Sender(a) && a !in locals ==> |ItemsOf(pending, a)| <= config.accountSlots
  }

  /** Within the limit for queued transactions, or all of them of local senders. */
  ghost predicate WithinQueue(queue: map<Address, Items>, locals: set<Address>, config: Config) {
    Total(queue) <= config.globalQueue || forall a :: a in queue ==> a in locals
  }

  lemma SameLists(lists: map<Address, Items>, lists': map<Address, Items>)
    requires NoneEmpty(lists) && NoneEmpty(lists') && forall a :: ItemsOf(lists, a) == ItemsOf(lists', a)
    ensures lists == lists'
  {
    forall a ensures a in lists <==> a in lists' {
      assert ItemsOf(lists, a) == ItemsOf(lists', a);
    }
    forall a | a in lists ensures lists[a] == lists'[a] {
      assert ItemsOf(lists, a) == ItemsOf(lists', a);
    }
  }

  lemma QueueKey(lists: map<Address, Items>, lists': map<Address, Items>, addr: Address)
    requires NoneEmpty(lists) && NoneEmpty(lists')
    requires ItemsOf(lists, addr) == ItemsOf(lists', addr)
    ensures addr in lists <==> addr in lists'
  {
  }

  /** `cut` are the remote senders that started above the level. */
  ghost predicate AreCut(locals: set<Address>, start: Address -> View, cut: set<Address>, level: nat) {
    forall a {:trigger Sender(a)} :: Sender(a) ==> (a in cut <==> a !in locals && level < |start(a).pending|)
  }

  class TxPool {
    const config: Config
    const all: TxLookup
    var pending: map<Address, Items>
    var queue: map<Address, Items>
    var locals: set<Address>
    var pendingNonces: TxNoncer
    var state: ChainState
    var maxGas: nat
    var gasPrice: nat
    /** The senders whose virtual nonce the last head change left below the chain nonce. */
    ghost var sunk: set<Address>

    ghost function V(a: Address): View
      reads this, pendingNonces
    {
      View(ItemsOf(pending, a), ItemsOf(queue, a), pendingNonces.Value(a))
    }

    ghost function E(a: Address): Limits
      reads this
    {
      Limits(state.nonce(a), state.balance(a), maxGas)
    }

    /** Every sender as it is now. */
    ghost function Snapshot(): (f: Address -> View)
      reads this, pendingNonces
      ensures forall a {:trigger f(a)} :: f(a) == V(a)
    {
      var p, q, nonces, fallback := pending, queue, pendingNonces.nonces, pendingNonces.fallback;
      (a: Address) => View(ItemsOf(p, a), ItemsOf(q, a), if a in nonces then nonces[a] else fallback(a))
    }

    /** No transaction is leaked or listed twice. */
    ghost predicate Consistent()
      reads this, all, pendingNonces
    {
      && Tidy()
      && forall a {:trigger Sender(a)} :: Sender(a) ==> Listed(V(a), a, all.Txs())
    }

    /** The table is intact and no sender has an empty list. */
    ghost predicate Tidy()
      reads this, all
    {
      all.Valid() && NoneEmpty(pending) && NoneEmpty(queue)
    }

    /** No transaction of a local sender counts as remote. */
    ghost predicate Apart()
      reads this, all
    {
      forall tx :: tx in all.remotes ==> tx.sender !in locals
    }

    /** The table has nothing that it did not have before. */
    ghost predicate Shrinks(locals: set<Tx>, remotes: set<Tx>)
      reads all
    {
      all.locals <= locals && all.remotes <= remotes
    }

    /** The table has nothing that it did not have before but one transaction on one side. */
    ghost predicate Grows(locals: set<Tx>, remotes: set<Tx>, tx: Tx, local: bool)
      reads all
    {
      all.locals <= locals + (if local then {tx} else {}) && all.remotes <= remotes + (if local then {} else {tx})
    }

    /** Only transactions of one sender have become local. */
    ghost predicate Migrated(locals: set<Tx>, addr: Address)
      reads all
    {
      forall tx :: tx in all.locals ==> tx in locals || tx.sender == addr
    }

    /** The most transactions promotion leaves queued; local senders have no limit. */
    ghost function QueueLimit(addr: Address): Limit
      reads this
    {
      if addr in locals then Unlimited else AtMost(config.accountQueue)
    }

    /** What decides on offers, from the node itself or from others, as things stand. */
    function RulesFor(local: bool): Rules
      reads this
    {
      Rules(config, state, maxGas, gasPrice, locals, local)
    }

    /** What decides on the transactions put back at a new head. */
    function RulesAt(head: Head): Rules
      reads this
    {
      Rules(config, head.state, head.maxGas, gasPrice, locals, false)
    }

    ghost predicate AllSettled()
      reads this, pendingNonces
    {
      forall a :: Settled(V(a), E(a))
    }

    /** The virtual nonces below the chain nonce are those of the recorded senders. */
    ghost predicate Charted()
      reads this, pendingNonces
    {
      forall a :: Floored(V(a), E(a)) <==> a !in sunk
    }

    constructor (config: Config, locals: set<Address>, state: ChainState, maxGas: nat, gasPrice: nat)
      ensures Consistent() && AllSettled() && Charted() && Apart()
      ensures all.Txs() == {} && fresh(all) && fresh(pendingNonces)
      ensures this.config == config && this.locals == locals && this.state == state
      ensures this.maxGas == maxGas && this.gasPrice == gasPrice
      ensures forall a :: V(a) == View(map[], map[], state.nonce(a))
    {
      this.config, this.locals, this.state, this.maxGas, this.gasPrice := config, locals, state, maxGas, gasPrice;
      pending, queue, sunk := map[], map[], {};
      all := new TxLookup();
      pendingNonces := new TxNoncer(state.nonce);
    }

    // -------------------------------------------------------- moving list parts

    /** Files a sender's queue, or takes it out once it is empty. */
    method SetQueued(addr: Address, items: Items)
      requires Tidy()
      modifies this`queue
      ensures Tidy()
      ensures V(addr) == old(V(addr)).(queued := items)
      ensures forall a :: a != addr ==> V(a) == old(V(a))
    {
      queue := Filed(queue, addr, items);
    }

    method SetPending(addr: Address, items: Items)
      requires Tidy()
      modifies this`pending
      ensures Tidy()
      ensures V(addr) == old(V(addr)).(pending := items)
      ensures forall a :: a != addr ==> V(a) == old(V(a))
    {
      pending := Filed(pending, addr, items);
    }

    /** Takes a group of transactions out of the table. */
    method Forget(items: Items)
      requires all.Valid()
      modifies all
      ensures all.Valid()
      ensures all.Txs() == old(all.Txs()) - items.Values && Shrinks(old(all.locals), old(all.remotes))
    {
      var todo := items.Keys;
      while todo != {}
        invariant todo <= items.Keys
        invariant all.Valid() && Shrinks(old(all.locals), old(all.remotes))
        invariant forall tx :: tx in all.Txs() <==>
                    tx in old(all.Txs()) && forall n :: n in items && n !in todo ==> items[n] != tx
        decreases todo
      {
        var n :| n in todo;
        all.Remove(items[n]);
        todo := todo - {n};
      }
      assert forall tx :: tx in items.Values <==> exists n :: n in items && items[n] == tx;
    }

    /** Inserts a transaction into the queue, unless an equally priced one holds
        its nonce. */
    method EnqueueTx(tx: Tx, local: bool, addAll: bool) returns (inserted: bool, replaced: bool)
      requires all.Valid()
      requires addAll ==> !all.Has(tx)
      modifies this`queue, all
      ensures all.Valid()
      ensures
        var items := ItemsOf(old(queue), tx.sender);
        && replaced == (inserted && tx.nonce in items)
        && inserted == (tx.nonce in items ==> Outbids(items[tx.nonce], tx, config.priceBump))
        && queue == (if inserted then old(queue)[tx.sender := With(items, tx)] else old(queue))
        && all.Txs() == old(all.Txs()) - (if replaced then {items[tx.nonce]} else {})
                        + (if inserted && addAll then {tx} else {})
      ensures if addAll then Grows(old(all.locals), old(all.remotes), tx, local)
              else Shrinks(old(all.locals), old(all.remotes))
    {
      var items := ItemsOf(queue, tx.sender);
      if tx.nonce in items && !Outbids(items[tx.nonce], tx, config.priceBump) {
        return false, false;
      }
      inserted, replaced := true, tx.nonce in items;
      queue := queue[tx.sender := With(items, tx)];
      if replaced {
        all.Remove(items[tx.nonce]);
      }
      if addAll {
        all.Add(tx, local);
      }
    }

    /** Moves transactions back into the queue without touching the table. */
    method Requeue(addr: Address, items: Items)
      requires all.Valid()
      requires Owned(items, addr)
      requires forall n :: n in items ==> n !in ItemsOf(queue, addr)
      modifies this`queue, all
      ensures all.Valid() && all.Txs() == old(all.Txs())
      ensures Shrinks(old(all.locals), old(all.remotes))
      ensures ItemsOf(queue, addr) == ItemsOf(old(queue), addr) + items
      ensures forall a :: a != addr ==> ItemsOf(queue, a) == ItemsOf(old(queue), a)
      ensures NoneEmpty(old(queue)) ==> NoneEmpty(queue)
    {
      var todo := items.Keys;
      while todo != {}
        invariant todo <= items.Keys
        invariant all.Valid() && all.Txs() == old(all.Txs())
        invariant Shrinks(old(all.locals), old(all.remotes))
        invariant ItemsOf(queue, addr) == ItemsOf(old(queue), addr) + (items - todo)
        invariant forall a :: a != addr ==> ItemsOf(queue, a) == ItemsOf(old(queue), a)
        invariant NoneEmpty(old(queue)) ==> NoneEmpty(queue)
        decreases todo
      {
        var n :| n in todo;
        var inserted, replaced := EnqueueTx(items[n], false, false);
        todo := todo - {n};
      }
    }

    /** Cuts a sender's pending list at a nonce; what lay above it is queued again. */
    method CutPending(addr: Address, n: nat)
      requires Tidy()
      requires addr in pending
      requires Owned(pending[addr], addr) && Separate(V(addr))
      modifies this`pending, this`queue, all, pendingNonces
      ensures Tidy()
      ensures all.Txs() == old(all.Txs())
      ensures Shrinks(old(all.locals), old(all.remotes))
      ensures V(addr) == DropPending(old(V(addr)), n)
      ensures forall a :: a != addr ==> V(a) == old(V(a))
    {
      CutList(addr, n);
      pendingNonces.SetIfLower(addr, n);
    }

    method CutList(addr: Address, n: nat)
      requires Tidy()
      requires addr in pending
      requires Owned(pending[addr], addr) && Separate(V(addr))
      modifies this`pending, this`queue, all
      ensures Tidy()
      ensures all.Txs() == old(all.Txs()) && Shrinks(old(all.locals), old(all.remotes))
      ensures V(addr) == DropPending(old(V(addr)), n).(nonce := old(V(addr)).nonce)
      ensures forall a :: a != addr ==> V(a) == old(V(a))
    {
      var list := pending[addr];
      SetPending(addr, Below(list, n));
      Requeue(addr, From(list, n + 1));
    }

    /** Takes a listed transaction out of the table and its list. */
    method Unlist(tx: Tx)
      requires Tidy()
      requires Listed(V(tx.sender), tx.sender, all.Txs())
      requires tx in all.Txs()
      modifies this`pending, this`queue, all, pendingNonces
      ensures Tidy()
      ensures all.Txs() == old(all.Txs()) - {tx}
      ensures Shrinks(old(all.locals), old(all.remotes))
      ensures V(tx.sender) == Dropped(old(V(tx.sender)), tx)
      ensures forall a :: a != tx.sender ==> V(a) == old(V(a))
    {
      var addr := tx.sender;
      all.Remove(tx);
      if addr in pending && tx.nonce in pending[addr] {
        CutPending(addr, tx.nonce);
      } else if addr in queue {
        SetQueued(addr, queue[addr] - {tx.nonce});
      }
    }

    /** Removes one transaction; whatever followed it in pending goes back to the
        queue and the virtual nonce falls to the freed nonce. */
    method RemoveTx(tx: Tx)
      requires Consistent()
      modifies this`pending, this`queue, all, pendingNonces
      ensures Consistent()
      ensures all.Txs() == old(all.Txs()) - {tx}
      ensures Shrinks(old(all.locals), old(all.remotes))
      ensures forall a :: V(a) == if a == tx.sender && tx in old(all.Txs()) then Dropped(old(V(a)), tx) else old(V(a))
    {
      if !all.Has(tx) {
        return;
      }
      ghost var before, txs := V(tx.sender), all.Txs();
      assert Sender(tx.sender);
      Unlist(tx);
      forall a ensures Listed(V(a), a, all.Txs()) {
        assert Sender(a);
        assert Listed(old(V(a)), a, txs);
        if a == tx.sender {
          DroppedListed(before, a, txs, tx);
        } else {
          ListedElsewhere(V(a), a, txs, all.Txs());
        }
      }
    }

    // ------------------------------------------------------------- promotion

    /** Adds a transaction to the pending list, unless an equally priced one
        already holds its nonce; the loser leaves the pool. */
    method PromoteTx(addr: Address, tx: Tx) returns (inserted: bool)
      requires Tidy()
      modifies this`pending, all, pendingNonces
      ensures Tidy()
      ensures
        var before := old(V(addr));
        && inserted == (tx.nonce in before.pending ==> Outbids(before.pending[tx.nonce], tx, config.priceBump))
        && V(addr) == (if inserted then PutPending(before, tx).(nonce := tx.nonce + 1) else before)
        && all.Txs() == old(all.Txs()) - (if !inserted then {tx}
                                          else if tx.nonce in before.pending then {before.pending[tx.nonce]} else {})
      ensures Shrinks(old(all.locals), old(all.remotes))
      ensures forall a :: a != addr ==> V(a) == old(V(a))
    {
      var items := ItemsOf(pending, addr);
      if tx.nonce in items && !Outbids(items[tx.nonce], tx, config.priceBump) {
        all.Remove(tx);
        return false;
      }
      pending := pending[addr := With(items, tx)];
      if tx.nonce in items {
        all.Remove(items[tx.nonce]);
      }
      pendingNonces.Set(addr, tx.nonce + 1);
      return true;
    }

    /** Promotes transactions in nonce order. */
    method PromoteAll(addr: Address, run: Items)
      requires Tidy()
      requires Keyed(run)
      requires forall n :: n in run ==> n !in V(addr).pending
      modifies this`pending, all, pendingNonces
      ensures Tidy() && all.Txs() == old(all.Txs()) && Shrinks(old(all.locals), old(all.remotes))
      ensures V(addr) == WithRun(old(V(addr)), run)
      ensures forall a :: a != addr ==> V(a) == old(V(a))
    {
      ghost var base := V(addr);
      WithBelowNone(base, run);
      var bound: nat := 0;
      while From(run, bound) != map[]
        invariant Tidy() && all.Txs() == old(all.Txs()) && Shrinks(old(all.locals), old(all.remotes))
        invariant bound == 0 || bound - 1 in run
        invariant V(addr) == WithBelow(base, run, bound)
        invariant forall a :: a != addr ==> V(a) == old(V(a))
        decreases From(run, bound).Keys
      {
        bound := PromoteLowest(addr, run, bound, base);
      }
      WithBelowAll(base, run, bound);
    }

    /** Promotes the next transaction of a run. */
    method PromoteLowest(addr: Address, run: Items, bound: nat, ghost base: View) returns (next: nat)
      requires Tidy() && Keyed(run) && From(run, bound) != map[]
      requires forall n :: n in run ==> n !in base.pending
      requires V(addr) == WithBelow(base, run, bound)
      modifies this`pending, all, pendingNonces
      ensures Tidy() && all.Txs() == old(all.Txs()) && Shrinks(old(all.locals), old(all.remotes))
      ensures next > 0 && next - 1 in run && From(run, next).Keys < From(run, bound).Keys
      ensures V(addr) == WithBelow(base, run, next)
      ensures forall a :: a != addr ==> V(a) == old(V(a))
    {
      LowestOf(From(run, bound));
      var n: nat :| IsLowest(From(run, bound), n);
      WithBelowNext(base, run, bound, n);
      var inserted := PromoteTx(addr, run[n]);
      next := n + 1;
    }

    /** Moves a run of queued transactions to pending. */
    method MoveToPending(addr: Address, run: Items)
      requires Consistent()
      requires Within(run, V(addr).queued)
      modifies this`pending, this`queue, all, pendingNonces
      ensures Consistent() && all.Txs() == old(all.Txs()) && Shrinks(old(all.locals), old(all.remotes))
      ensures V(addr) == Moved(old(V(addr)), run)
      ensures forall a :: a != addr ==> V(a) == old(V(a))
    {
      ghost var before, txs := V(addr), all.Txs();
      assert Sender(addr);
      SetQueued(addr, Without(ItemsOf(queue, addr), run));
      PromoteAll(addr, run);
      MovedListed(before, addr, txs, run);
      forall a ensures Listed(V(a), a, all.Txs()) {
        assert Sender(a);
        assert Listed(old(V(a)), a, txs);
      }
    }

    /** Drops transactions out of one sender's queue and the table. */
    method ForgetQueued(addr: Address, drop: Items)
      requires Consistent()
      requires Within(drop, V(addr).queued)
      modifies this`queue, all
      ensures Consistent() && all.Txs() == old(all.Txs()) - drop.Values && Shrinks(old(all.locals), old(all.remotes))
      ensures V(addr) == old(V(addr)).(queued := Without(old(V(addr)).queued, drop))
      ensures forall a :: a != addr ==> V(a) == old(V(a))
    {
      ghost var before, txs := V(addr), all.Txs();
      assert Sender(addr);
      SetQueued(addr, Without(ItemsOf(queue, addr), drop));
      Forget(drop);
      ForgottenListed(before, addr, txs, drop);
      forall a ensures Listed(V(a), a, all.Txs()) {
        assert Sender(a);
        assert Listed(old(V(a)), a, txs);
      }
    }

    /** Drops queued transactions that are too old or cannot be paid for. */
    method PruneQueue(addr: Address)
      requires Consistent()
      modifies this`queue, all
      ensures Consistent() && Shrinks(old(all.locals), old(all.remotes))
      ensures V(addr) == old(V(addr)).(queued := Usable(old(V(addr)), E(addr)))
      ensures forall a :: a != addr ==> V(a) == old(V(a))
    {
      WithoutBelow(ItemsOf(queue, addr), state.nonce(addr));
      ForgetQueued(addr, Below(ItemsOf(queue, addr), state.nonce(addr)));
      var list := ItemsOf(queue, addr);
      var payable := KeepPayable(list, state.balance(addr), maxGas);
      WithoutWithout(list, payable);
      ForgetQueued(addr, Without(list, payable));
    }

    method PromoteReady(addr: Address)
      requires Consistent()
      modifies this`pending, this`queue, all, pendingNonces
      ensures Consistent() && all.Txs() == old(all.Txs()) && Shrinks(old(all.locals), old(all.remotes))
      ensures V(addr) == Moved(old(V(addr)), ReadyRun(old(V(addr)).queued, old(V(addr)).nonce))
      ensures forall a :: a != addr ==> V(a) == old(V(a))
    {
      var start := pendingNonces.Get(addr);
      var run, rest := TakeReady(ItemsOf(queue, addr), start);
      MoveToPending(addr, run);
    }

    /** Drops the highest queued nonces of a sender that is over its limit. */
    method CapQueue(addr: Address)
      requires Consistent()
      modifies this`queue, all
      ensures Consistent() && Shrinks(old(all.locals), old(all.remotes))
      ensures V(addr) == old(V(addr)).(queued := V(addr).queued)
      ensures LeftUnder(QueueLimit(addr), old(V(addr)).queued, V(addr).queued)
      ensures forall a :: a != addr ==> V(a) == old(V(a))
    {
      if addr !in locals {
        var list := ItemsOf(queue, addr);
        var kept := CapItems(list, config.accountQueue);
        WithoutWithout(list, kept);
        ForgetQueued(addr, Without(list, kept));
      }
    }

    /** Drops stale, unpayable and surplus queued transactions of one sender and
        promotes the executable ones. */
    method PromoteAccount(addr: Address)
      requires Consistent()
      modifies this`pending, this`queue, all, pendingNonces
      ensures Consistent() && Shrinks(old(all.locals), old(all.remotes))
      ensures addr !in old(queue) ==> V(addr) == old(V(addr))
      ensures addr in old(queue) ==> IsPromotion(old(V(addr)), E(addr), QueueLimit(addr), V(addr))
      ensures forall a :: a != addr ==> V(a) == old(V(a))
    {
      if addr !in queue {
        return;
      }
      ghost var before := V(addr);
      PruneQueue(addr);
      PromoteReady(addr);
      assert V(addr) == Promoted(before, E(addr));
      CapQueue(addr);
    }

    /** What promotion leaves of a sender. */
    ghost predicate PromotedFrom(queued: bool, a: Address, v: View, w: View)
      reads this
    {
      if queued then IsPromotion(v, E(a), QueueLimit(a), w) else w == v
    }

    /** The senders of `done` are promoted and the others are as they were. */
    ghost predicate Promoting(start: Address -> View, queued: map<Address, Items>, done: set<Address>)
      reads this, pendingNonces
    {
      forall a {:trigger Sender(a)} :: Sender(a) ==>
        start(a).queued == ItemsOf(queued, a) && PromotedFrom(a in done && a in queued, a, start(a), V(a))
    }

    method PromoteNext(addr: Address, ghost start: Address -> View, ghost queued: map<Address, Items>,
                       ghost done: set<Address>)
      requires Consistent() && NoneEmpty(queued) && addr !in done && Promoting(start, queued, done)
      modifies this`pending, this`queue, all, pendingNonces
      ensures Consistent() && Shrinks(old(all.locals), old(all.remotes)) && Promoting(start, queued, done + {addr})
    {
      assert Sender(addr);
      QueueKey(queue, queued, addr);
      PromoteAccount(addr);
      forall a ensures start(a).queued == ItemsOf(queued, a)
               && PromotedFrom(a in done + {addr} && a in queued, a, start(a), V(a)) {
        assert Sender(a);
      }
    }

    /** Promotes the given senders, in any order. */
    method PromoteExecutables(accounts: set<Address>)
      requires Consistent()
      modifies this`pending, this`queue, all, pendingNonces
      ensures Consistent() && Shrinks(old(all.locals), old(all.remotes))
      ensures forall a {:trigger Sender(a)} :: Sender(a) ==>
                PromotedFrom(a in accounts && a in old(queue), a, old(V(a)), V(a))
    {
      ghost var start := Snapshot();
      var todo := accounts;
      while todo != {}
        invariant Consistent() && Shrinks(old(all.locals), old(all.remotes))
        invariant todo <= accounts && Promoting(start, old(queue), accounts - todo)
        decreases todo
      {
        var addr :| addr in todo;
        PromoteNext(addr, start, old(queue), accounts - todo);
        assert accounts - (todo - {addr}) == accounts - todo + {addr};
        todo := todo - {addr};
      }
      assert accounts - todo == accounts;
    }

    // -------------------------------------------------------------- demotion

    /** Drops transactions out of one sender's pending list and the table. */
    method ForgetPending(addr: Address, drop: Items)
      requires Consistent()
      requires Within(drop, V(addr).pending)
      modifies this`pending, all
      ensures Consistent() && all.Txs() == old(all.Txs()) - drop.Values && Shrinks(old(all.locals), old(all.remotes))
      ensures V(addr) == old(V(addr)).(pending := Without(old(V(addr)).pending, drop))
      ensures forall a :: a != addr ==> V(a) == old(V(a))
    {
      ghost var before, txs := V(addr), all.Txs();
      assert Sender(addr);
      SetPending(addr, Without(ItemsOf(pending, addr), drop));
      Forget(drop);
      ForgottenPendingListed(before, addr, txs, drop);
      forall a ensures Listed(V(a), a, all.Txs()) {
        assert Sender(a);
        assert Listed(old(V(a)), a, txs);
      }
    }

    /** Moves pending transactions back to the queue. */
    method MoveToQueue(addr: Address, items: Items)
      requires Consistent()
      requires Within(items, V(addr).pending)
      modifies this`pending, this`queue, all
      ensures Consistent() && all.Txs() == old(all.Txs()) && Shrinks(old(all.locals), old(all.remotes))
      ensures V(addr) == MovedBack(old(V(addr)), items)
      ensures forall a :: a != addr ==> V(a) == old(V(a))
    {
      ghost var before, txs := V(addr), all.Txs();
      assert Sender(addr);
      SetPending(addr, Without(ItemsOf(pending, addr), items));
      Requeue(addr, items);
      MovedBackListed(before, addr, txs, items);
      forall a ensures Listed(V(a), a, all.Txs()) {
        assert Sender(a);
        assert Listed(old(V(a)), a, txs);
      }
    }

    /** Drops pending transactions that are too old or cannot be paid for. */
    method PrunePending(addr: Address)
      requires Consistent()
      modifies this`pending, all
      ensures Consistent() && Shrinks(old(all.locals), old(all.remotes))
      ensures
        var v, e := old(V(addr)), E(addr);
        V(addr) == v.(pending := KeepPayable(From(v.pending, e.nonce), e.balance, e.maxGas))
      ensures forall a :: a != addr ==> V(a) == old(V(a))
    {
      WithoutBelow(ItemsOf(pending, addr), state.nonce(addr));
      ForgetPending(addr, Below(ItemsOf(pending, addr), state.nonce(addr)));
      var list := ItemsOf(pending, addr);
      var payable := KeepPayable(list, state.balance(addr), maxGas);
      WithoutWithout(list, payable);
      ForgetPending(addr, Without(list, payable));
    }

    /** Re-checks one sender's pending list: stale and unpayable transactions
        leave the pool, and what they invalidate goes back to the queue. */
    method DemoteAccount(addr: Address)
      requires Consistent()
      modifies this`pending, this`queue, all
      ensures Consistent() && Shrinks(old(all.locals), old(all.remotes))
      ensures V(addr) == Demoted(old(V(addr)), E(addr))
      ensures forall a :: a != addr ==> V(a) == old(V(a))
    {
      ghost var before := V(addr);
      var kept := PayablePrefix(From(ItemsOf(pending, addr), state.nonce(addr)), state.balance(addr), maxGas);
      PrunePending(addr);
      var payable := ItemsOf(pending, addr);
      WithoutWithout(payable, kept);
      MoveToQueue(addr, Without(payable, kept));
      assert V(addr) == View(kept, before.queued + Without(payable, kept), before.nonce);
      if kept != map[] && state.nonce(addr) !in kept {
        WithoutAll(kept);
        MoveToQueue(addr, kept);
      }
    }

    /** All senders but those in `todo` have been re-checked. */
    ghost predicate DemotedExcept(start: Address -> View, todo: set<Address>)
      reads this, pendingNonces
    {
      forall a {:trigger Sender(a)} :: Sender(a) ==> V(a) == if a in todo then start(a) else Demoted(start(a), E(a))
    }

    method DemoteNext(ghost start: Address -> View, ghost todo: set<Address>, addr: Address)
      requires Consistent()
      requires DemotedExcept(start, todo) && addr in todo
      modifies this`pending, this`queue, all
      ensures Consistent() && Shrinks(old(all.locals), old(all.remotes))
      ensures DemotedExcept(start, todo - {addr})
    {
      assert Sender(addr);
      DemoteAccount(addr);
      forall a ensures V(a) == if a in todo - {addr} then start(a) else Demoted(start(a), E(a)) {
        assert Sender(a);
        assert a == addr || V(a) == old(V(a));
      }
    }

    /** Re-checks every sender with pending transactions. */
    method DemoteUnexecutables()
      requires Consistent()
      modifies this`pending, this`queue, all
      ensures Consistent() && Shrinks(old(all.locals), old(all.remotes))
      ensures forall a {:trigger Sender(a)} :: Sender(a) ==> V(a) == Demoted(old(V(a)), E(a))
    {
      var todo := pending.Keys;
      ghost var start := Snapshot();
      forall a | a !in todo ensures V(a) == Demoted(start(a), E(a)) {
        DemotedNothing(V(a), E(a));
      }
      while todo != {}
        invariant Consistent() && Shrinks(old(all.locals), old(all.remotes))
        invariant DemotedExcept(start, todo)
        decreases todo
      {
        var addr :| addr in todo;
        DemoteNext(start, todo, addr);
        todo := todo - {addr};
      }
    }

    // ------------------------------------------------------------- truncation

    ghost function Len(a: Address): nat
      reads this
    {
      |ItemsOf(pending, a)|
    }

    /** Lowers a sender's virtual nonce to that of a dropped transaction. */
    method LowerNonce(addr: Address, n: nat)
      requires Consistent()
      modifies pendingNonces
      ensures Consistent()
      ensures V(addr) == old(V(addr)).(nonce := Min(old(V(addr)).nonce, n))
      ensures forall a :: a != addr ==> V(a) == old(V(a))
    {
      pendingNonces.SetIfLower(addr, n);
      forall a ensures Listed(V(a), a, all.Txs()) {
        assert Sender(a);
        assert Listed(old(V(a)), a, all.Txs());
      }
    }

    /** Drops one sender's highest pending transaction. */
    method TrimPending(addr: Address)
      requires Consistent()
      requires Len(addr) > 0
      modifies this`pending, all, pendingNonces
      ensures Consistent() && Shrinks(old(all.locals), old(all.remotes))
      ensures TrimmedOne(old(V(addr)), V(addr))
      ensures forall a :: a != addr ==> V(a) == old(V(a))
    {
      ghost var before := V(addr);
      var list := pending[addr];
      HighestOf(list);
      var top: nat :| IsHighest(list, top);
      ForgetPending(addr, map[top := list[top]]);
      LowerNonce(addr, top);
      TrimmedIs(before, top, V(addr));
    }

    /** Drops one transaction from each of the given senders. */
    method TrimRound(addrs: set<Address>)
      requires Consistent()
      requires forall a {:trigger Sender(a)} :: Sender(a) && a in addrs ==> Len(a) > 0
      modifies this`pending, all, pendingNonces
      ensures Consistent() && Shrinks(old(all.locals), old(all.remotes))
      ensures forall a {:trigger Sender(a)} :: Sender(a) ==>
                if a in addrs then TrimmedOne(old(V(a)), V(a)) else V(a) == old(V(a))
    {
      var todo := addrs;
      while todo != {}
        invariant todo <= addrs
        invariant Consistent() && Shrinks(old(all.locals), old(all.remotes))
        invariant forall a {:trigger Sender(a)} :: Sender(a) ==>
                    if a in addrs && a !in todo then TrimmedOne(old(V(a)), V(a)) else V(a) == old(V(a))
        decreases todo
      {
        var addr :| addr in todo;
        assert Sender(addr);
        TrimPending(addr);
        todo := todo - {addr};
      }
    }

    method TrimOnce(addrs: set<Address>)
      requires Consistent()
      requires forall a {:trigger Sender(a)} :: Sender(a) && a in addrs ==> Len(a) > 0
      modifies this`pending, all, pendingNonces
      ensures Consistent() && Shrinks(old(all.locals), old(all.remotes))
      ensures forall a {:trigger Sender(a)} :: Sender(a) ==>
                if a in addrs then TrimmedOne(old(V(a)), V(a)) else V(a) == old(V(a))
      ensures Total(pending) == old(Total(pending)) - |addrs|
    {
      TrimRound(addrs);
      forall a ensures |ItemsOf(pending, a)| == |ItemsOf(old(pending), a)| - (if a in addrs then 1 else 0) {
        assert Sender(a);
      }
      TotalRound(addrs, old(pending), pending);
    }

    /** Trims equally long senders round by round, down to a threshold or until
        the pool is within its limit. */
    method TrimDown(addrs: set<Address>, probe: Address, threshold: nat, count: nat, ghost level: nat)
      returns (left: nat, ghost lower: nat)
      requires Consistent()
      requires probe in addrs && threshold <= level
      requires forall a {:trigger Sender(a)} :: Sender(a) && a in addrs ==> Len(a) == level
      requires count == Total(pending)
      modifies this`pending, all, pendingNonces
      ensures Consistent() && Shrinks(old(all.locals), old(all.remotes))
      ensures forall a {:trigger Sender(a)} :: Sender(a) ==> LevelledFrom(old(V(a)), V(a), a in addrs, level, lower)
      ensures threshold <= lower <= level
      ensures left == Total(pending)
      ensures left <= config.globalSlots || lower == threshold
      ensures if lower < level then config.globalSlots < left + |addrs| else left == count
    {
      left, lower := count, level;
      assert Sender(probe);
      while left > config.globalSlots && |ItemsOf(pending, probe)| > threshold
        invariant Consistent() && Shrinks(old(all.locals), old(all.remotes))
        invariant forall a {:trigger Sender(a)} :: Sender(a) ==> LevelledFrom(old(V(a)), V(a), a in addrs, level, lower)
        invariant threshold <= lower <= level && |ItemsOf(pending, probe)| == lower
        invariant left == Total(pending)
        invariant if lower < level then config.globalSlots < left + |addrs| else left == count
        decreases lower
      {
        label round:
        TrimOnce(addrs);
        left, lower := left - |addrs|, lower - 1;
        forall a ensures LevelledFrom(old(V(a)), V(a), a in addrs, level, lower) {
          assert Sender(a);
          LevelledStep(old(V(a)), old@round(V(a)), V(a), a in addrs, level, lower);
        }
      }
    }

    /** Every sender stands where its role says, compared to how it started. */
    ghost predicate AllStanding(start: Address -> View, spammers: map<Address, nat>, offenders: seq<Address>,
                                level: nat)
      reads this, pendingNonces
    {
      forall a {:trigger Sender(a)} :: Sender(a) ==>
        Standing(start(a), V(a), RoleOf(a, locals, spammers, offenders), config.accountSlots, level,
                 Total(pending) > config.globalSlots)
    }

    /** The state of the cutting: who waits, who is being cut and to what level. */
    ghost predicate Cutting(
        start: Address -> View, spammers: map<Address, nat>, offenders: seq<Address>,
        count: nat, level: nat, cut: set<Address>)
      reads this, pendingNonces
    {
      && count == Total(pending)
      && config.accountSlots <= level
      && (forall a :: a in spammers ==> a !in locals && a !in offenders)
      && (forall a :: a in offenders ==> a !in locals)
      && (offenders == [] ==> cut == {})
      && (cut == {} || config.globalSlots < count + |cut|)
      && AllStanding(start, spammers, offenders, level)
      && AreCut(locals, start, cut, level)
    }

    /** Cuts all current offenders to a common lower level. */
    method CutOffenders(
        ghost start: Address -> View, ghost spammers: map<Address, nat>, offenders: seq<Address>,
        threshold: nat, count: nat, ghost level: nat)
      returns (left: nat, ghost lower: nat)
      requires Consistent()
      requires offenders != [] && (forall a :: a in offenders ==> a !in locals)
      requires config.accountSlots <= threshold <= level
      requires forall a :: a in spammers ==> spammers[a] <= threshold
      requires count == Total(pending) && config.globalSlots < count
      requires AllStanding(start, spammers, offenders, level)
      modifies this`pending, all, pendingNonces
      ensures Consistent() && Shrinks(old(all.locals), old(all.remotes))
      ensures AllStanding(start, spammers, offenders, lower)
      ensures threshold <= lower <= level
      ensures left == Total(pending)
      ensures left <= config.globalSlots || lower == threshold
      ensures if lower < level then config.globalSlots < left + |Elements(offenders)| else left == count
    {
      forall a | a in offenders ensures Len(a) == level {
        assert Sender(a);
      }
      ghost var before := Snapshot();
      left, lower := TrimDown(Elements(offenders), offenders[|offenders| - 1], threshold, count, level);
      StandingAfter(start, before, spammers, offenders, level, lower);
    }

    lemma StandingAfter(
        start: Address -> View, before: Address -> View, spammers: map<Address, nat>, offenders: seq<Address>,
        level: nat, lower: nat)
      requires config.accountSlots <= lower <= level && forall a :: a in spammers ==> spammers[a] <= lower
      requires forall a :: a in offenders ==> a !in locals
      requires forall a {:trigger Sender(a)} :: Sender(a) ==>
        && Standing(start(a), before(a), RoleOf(a, locals, spammers, offenders), config.accountSlots, level, true)
        && LevelledFrom(before(a), V(a), a in offenders, level, lower)
      ensures AllStanding(start, spammers, offenders, lower)
    {
      forall a ensures Standing(start(a), V(a), RoleOf(a, locals, spammers, offenders), config.accountSlots, lower,
                                Total(pending) > config.globalSlots) {
        assert Sender(a);
        StandingStep(start(a), before(a), V(a), RoleOf(a, locals, spammers, offenders), config.accountSlots,
                     level, lower, Total(pending) > config.globalSlots);
      }
    }

    /** Once the level comes down the offenders are cut. */
    lemma OffendersAreCutBelow(
        start: Address -> View, spammers: map<Address, nat>, offenders: seq<Address>, level: nat, threshold: nat)
      requires forall a :: a in offenders ==> a !in locals
      requires config.accountSlots <= threshold
      requires forall a :: a in spammers ==> spammers[a] <= threshold
      requires Total(pending) > config.globalSlots
      requires AllStanding(start, spammers, offenders, level)
      ensures forall lower: nat :: threshold <= lower < level ==> AreCut(locals, start, Elements(offenders), lower)
    {
    }

    /** The next sender to penalise joins the offenders at their level. */
    lemma Enlist(start: Address -> View, spammers: map<Address, nat>, offenders: seq<Address>, addr: Address,
                 level: nat)
      requires AllStanding(start, spammers, offenders, level)
      requires addr in spammers && addr !in locals && addr !in offenders
      requires Total(pending) > config.globalSlots ==> level == spammers[addr]
      ensures AllStanding(start, spammers - {addr}, offenders + [addr], level)
    {
    }

    /** With nobody cut yet, the level may come down to the longest list. */
    lemma LowerLevel(start: Address -> View, spammers: map<Address, nat>, level: nat, lower: nat)
      requires AllStanding(start, spammers, [], level) && AreCut(locals, start, {}, level)
      requires config.accountSlots <= lower <= level
      requires forall a :: a in spammers ==> spammers[a] <= lower
      ensures AllStanding(start, spammers, [], lower) && AreCut(locals, start, {}, lower)
    {
    }

    /** Cuts the earlier offenders down to the length of the next one. */
    method CutToNext(
        ghost start: Address -> View, ghost spammers: map<Address, nat>, offenders: seq<Address>, offender: Address,
        count: nat, ghost level: nat, ghost cut: set<Address>)
      returns (left: nat, ghost lower: nat, ghost cut': set<Address>)
      requires Consistent()
      requires Cutting(start, spammers, offenders, count, level, cut) && config.globalSlots < count
      requires offenders != []
      requires offender in spammers && forall a :: a in spammers ==> spammers[a] <= spammers[offender]
      modifies this`pending, all, pendingNonces
      ensures Consistent() && Shrinks(old(all.locals), old(all.remotes))
      ensures Cutting(start, spammers, offenders, left, lower, cut')
      ensures config.globalSlots < left ==> lower == spammers[offender]
    {
      assert Sender(offender);
      var threshold := |ItemsOf(pending, offender)|;
      OffendersAreCutBelow(start, spammers, offenders, level, threshold);
      left, lower := CutOffenders(start, spammers, offenders, threshold, count, level);
      cut' := if lower < level then Elements(offenders) else cut;
    }

    /** Cuts the earlier offenders and adds the next one to them. */
    method Penalise(
        ghost start: Address -> View, ghost spammers: map<Address, nat>, offenders: seq<Address>, offender: Address,
        count: nat, ghost level: nat, ghost cut: set<Address>)
      returns (left: nat, ghost lower: nat, ghost cut': set<Address>)
      requires Consistent()
      requires Cutting(start, spammers, offenders, count, level, cut) && config.globalSlots < count
      requires offender in spammers && forall a :: a in spammers ==> spammers[a] <= spammers[offender]
      modifies this`pending, all, pendingNonces
      ensures Consistent() && Shrinks(old(all.locals), old(all.remotes))
      ensures Cutting(start, spammers - {offender}, offenders + [offender], left, lower, cut')
    {
      if offenders == [] {
        assert Sender(offender);
        left, lower, cut' := count, spammers[offender], cut;
        LowerLevel(start, spammers, level, lower);
      } else {
        left, lower, cut' := CutToNext(start, spammers, offenders, offender, count, level, cut);
      }
      Enlist(start, spammers, offenders, offender, lower);
    }

    /** Cuts all offenders down to the guaranteed slots if need be. */
    method CutToFloor(
        ghost start: Address -> View, ghost spammers: map<Address, nat>, offenders: seq<Address>,
        count: nat, ghost level: nat, ghost cut: set<Address>)
      returns (left: nat, ghost lower: nat, ghost cut': set<Address>)
      requires Consistent()
      requires Cutting(start, spammers, offenders, count, level, cut) && config.globalSlots < count
      requires spammers == map[]
      modifies this`pending, all, pendingNonces
      ensures Consistent() && Shrinks(old(all.locals), old(all.remotes))
      ensures Cutting(start, spammers, offenders, left, lower, cut')
      ensures left <= config.globalSlots || lower == config.accountSlots
    {
      if offenders == [] {
        left, lower, cut' := count, config.accountSlots, cut;
        LowerLevel(start, spammers, level, lower);
      } else {
        OffendersAreCutBelow(start, spammers, offenders, level, config.accountSlots);
        left, lower := CutOffenders(start, spammers, offenders, config.accountSlots, count, level);
        cut' := if lower < level then Elements(offenders) else cut;
      }
    }

    /** Penalises senders from the longest list down, keeping all offenders at
        equal length, until the pool is within its limit or all are offenders. */
    method Equalise(ghost start: Address -> View, candidates: map<Address, nat>, total: nat, ghost top: nat)
      returns (count: nat, offenders: seq<Address>, rest: map<Address, nat>, ghost level: nat, ghost cut: set<Address>)
      requires Consistent()
      requires Cutting(start, candidates, [], total, top, {})
      modifies this`pending, all, pendingNonces
      ensures Consistent() && Shrinks(old(all.locals), old(all.remotes))
      ensures Cutting(start, rest, offenders, count, level, cut)
      ensures config.globalSlots < count ==> rest == map[]
    {
      count, level, cut, offenders, rest := total, top, {}, [], candidates;
      while count > config.globalSlots && rest != map[]
        invariant Consistent() && Shrinks(old(all.locals), old(all.remotes))
        invariant Cutting(start, rest, offenders, count, level, cut)
        decreases |rest|
      {
        ghost var best := HighestPriority(rest);
        var offender :| offender in rest && forall a | a in rest :: rest[a] <= rest[offender];
        count, level, cut := Penalise(start, rest, offenders, offender, count, level, cut);
        rest := rest - {offender};
        offenders := offenders + [offender];
      }
    }

    method CutLargest(ghost start: Address -> View, candidates: map<Address, nat>, total: nat, ghost top: nat)
      returns (count: nat, offenders: seq<Address>, rest: map<Address, nat>, ghost level: nat, ghost cut: set<Address>)
      requires Consistent()
      requires Cutting(start, candidates, [], total, top, {})
      modifies this`pending, all, pendingNonces
      ensures Consistent() && Shrinks(old(all.locals), old(all.remotes))
      ensures Cutting(start, rest, offenders, count, level, cut)
      ensures count <= config.globalSlots || level == config.accountSlots
    {
      count, offenders, rest, level, cut := Equalise(start, candidates, total, top);
      if count > config.globalSlots {
        count, level, cut := CutToFloor(start, rest, offenders, count, level, cut);
      }
    }

    /** Who may be penalised: remote senders with more than their guaranteed slots. */
    function Candidates(): map<Address, nat>
      reads this
    {
      map a | a in pending && a !in locals && config.accountSlots < |pending[a]| :: |pending[a]|
    }

    lemma StartCutting(level: nat)
      requires level == Total(pending) + config.accountSlots
      ensures Cutting(Snapshot(), Candidates(), [], Total(pending), level, {})
    {
      forall a ensures |V(a).pending| <= Total(pending) {
        TotalWithout(pending, a);
      }
    }

    /** Once the cutting is over, all remote senders are within the level. */
    lemma EndCutting(
        start: Address -> View, spammers: map<Address, nat>, offenders: seq<Address>,
        count: nat, level: nat, cut: set<Address>)
      requires Cutting(start, spammers, offenders, count, level, cut)
      ensures forall a {:trigger Sender(a)} :: Sender(a) ==> Cropped(start(a), V(a), a in locals, level)
    {
    }

    /** Cuts the senders with the most pending transactions to a common level
        until the pool is within its limit, never below the guaranteed slots and
        never touching local senders. `level` is that level and `cut` the
        senders that lost transactions. */
    method TruncatePending() returns (ghost level: nat, ghost cut: set<Address>)
      requires Consistent()
      modifies this`pending, all, pendingNonces
      ensures Consistent() && Shrinks(old(all.locals), old(all.remotes))
      ensures forall a {:trigger Sender(a)} :: Sender(a) ==> Cropped(old(V(a)), V(a), a in locals, level)
      ensures forall a {:trigger Sender(a)} :: Sender(a) ==> (a in cut <==> a !in locals && level < |old(V(a)).pending|)
      ensures config.accountSlots <= level
      ensures Total(pending) <= config.globalSlots || level == config.accountSlots
      ensures cut == {} || config.globalSlots < Total(pending) + |cut|
      ensures old(Total(pending)) <= config.globalSlots ==> forall a :: V(a) == old(V(a))
    {
      ghost var start := Snapshot();
      var count := CountTxs(pending);
      level, cut := count + config.accountSlots, {};
      StartCutting(level);
      var offenders, rest := [], Candidates();
      if count > config.globalSlots {
        count, offenders, rest, level, cut := CutLargest(start, rest, count, level);
      }
      EndCutting(start, rest, offenders, count, level, cut);
    }

    /** Removes one queued transaction through the general removal. */
    method RemoveQueued(addr: Address, n: nat)
      requires Consistent()
      requires n in V(addr).queued
      modifies this`pending, this`queue, all, pendingNonces
      ensures Consistent() && Shrinks(old(all.locals), old(all.remotes))
      ensures V(addr) == DropQueued(old(V(addr)), n)
      ensures forall a :: a != addr ==> V(a) == old(V(a))
    {
      assert Sender(addr);
      var tx := queue[addr][n];
      assert Holds(V(addr), tx);
      RemoveTx(tx);
    }

    /** Removes the highest queued nonces of one sender, `surplus` of them. */
    method RemoveHighest(addr: Address, surplus: nat)
      requires Consistent()
      requires surplus <= |V(addr).queued|
      modifies this`pending, this`queue, all, pendingNonces
      ensures Consistent() && Shrinks(old(all.locals), old(all.remotes))
      ensures QueueCut(old(V(addr)), V(addr)) && |V(addr).queued| == |old(V(addr)).queued| - surplus
      ensures forall a :: a != addr ==> V(a) == old(V(a))
    {
      var left: nat := surplus;
      while left > 0
        invariant left <= surplus
        invariant Consistent() && Shrinks(old(all.locals), old(all.remotes))
        invariant QueueCut(old(V(addr)), V(addr)) && |V(addr).queued| == |old(V(addr)).queued| - surplus + left
        invariant forall a :: a != addr ==> V(a) == old(V(a))
      {
        HighestOf(ItemsOf(queue, addr));
        var top: nat :| IsHighest(ItemsOf(queue, addr), top);
        ghost var before := V(addr);
        RemoveQueued(addr, top);
        QueueCutStep(old(V(addr)), before, V(addr), top);
        left := left - 1;
      }
    }

    /** Removes all queued transactions of a sender, or its highest `drop`. */
    method ReduceQueue(addr: Address, drop: nat) returns (removed: nat)
      requires Consistent()
      modifies this`pending, this`queue, all, pendingNonces
      ensures Consistent() && Shrinks(old(all.locals), old(all.remotes))
      ensures QueueCut(old(V(addr)), V(addr))
      ensures removed <= drop && (removed == drop || V(addr).queued == map[])
      ensures Total(queue) == old(Total(queue)) - removed
      ensures forall a :: a != addr ==> V(a) == old(V(a))
    {
      removed := Min(drop, |ItemsOf(queue, addr)|);
      RemoveHighest(addr, removed);
      forall a | a != addr ensures ItemsOf(old(queue), a) == ItemsOf(queue, a) {
        assert V(a) == old(V(a));
      }
      TotalChange(old(queue), queue, addr);
    }

    /** Remote senders have lost queued transactions in the order of their heartbeats, the
        latest first: whoever has lost any comes after all of a later beat lost all. */
    ghost predicate LatestFirst(start: Address -> View, beats: Address -> nat)
      reads this, pendingNonces
    {
      forall a, b {:trigger Sender(a), Sender(b)} :: Sender(a) && Sender(b) ==>
        a !in locals && b !in locals && beats(a) < beats(b) && V(a) != start(a) ==> V(b).queued == map[]
    }

    /** Remote senders have lost queued transactions in the opposite order, the oldest first. */
    ghost predicate OldestFirst(start: Address -> View, beats: Address -> nat)
      reads this, pendingNonces
    {
      forall a, b {:trigger Sender(a), Sender(b)} :: Sender(a) && Sender(b) ==>
        a !in locals && b !in locals && beats(b) < beats(a) && V(a) != start(a) ==> V(b).queued == map[]
    }

    /** The order makes no difference: the queue is within its limit, or all remote senders
        must lose all they have, or they all have the same heartbeat. */
    ghost predicate OrderIdle(queue: map<Address, Items>, beats: Address -> nat)
      reads this
    {
      || Total(queue) <= config.globalQueue
      || config.globalQueue + Total(queue - locals) <= Total(queue)
      || forall a, b :: a in queue - locals && b in queue - locals ==> beats(a) == beats(b)
    }

    /** What is known of the queue once it has been truncated. */
    ghost predicate Truncated(start: Address -> View, before: map<Address, Items>, beats: Address -> nat)
      reads this, pendingNonces
    {
      && NoneEmpty(before) && NoneEmpty(queue) && LatestFirst(start, beats)
      && config.globalQueue < Total(before) && config.globalQueue <= Total(queue)
      && (Total(queue) <= config.globalQueue || forall a :: a in queue ==> a in locals)
      && forall a {:trigger Sender(a)} :: Sender(a) ==>
           && start(a).queued == ItemsOf(before, a) && QueueCut(start(a), V(a))
           && (a in locals ==> V(a) == start(a))
    }

    /** What local senders have queued stays, so that the rest is what remote senders lose. */
    lemma RemoteLoss(start: Address -> View, before: map<Address, Items>, beats: Address -> nat)
      requires Truncated(start, before, beats)
      ensures Total(before) - Total(queue) == Total(before - locals) - Total(queue - locals)
    {
      forall a | a in locals ensures ItemsOf(before, a) == ItemsOf(queue, a) {
        assert Sender(a);
      }
      RestLoss(before, queue, locals);
    }

    /** Where everything goes nothing is left of remote senders. */
    lemma AllGone(start: Address -> View, before: map<Address, Items>, beats: Address -> nat)
      requires Truncated(start, before, beats)
      ensures config.globalQueue + Total(before - locals) <= Total(before) <==> queue - locals == map[]
    {
      RemoteLoss(start, before, beats);
      var rest := queue - locals;
      if rest != map[] {
        var a :| a in rest;
        TotalWithout(rest, a);
        assert |rest[a]| > 0;
      }
    }

    /** Some remote sender has lost something. */
    lemma SomeoneLost(start: Address -> View, before: map<Address, Items>, beats: Address -> nat) returns (c: Address)
      requires Truncated(start, before, beats) && before - locals != map[]
      ensures c !in locals && V(c) != start(c)
    {
      RemoteLoss(start, before, beats);
      if forall a {:trigger Sender(a)} :: Sender(a) && a !in locals ==> V(a) == start(a) {
        forall a ensures ItemsOf(before - locals, a) == ItemsOf(queue - locals, a) {
          assert Sender(a);
        }
        SameLists(before - locals, queue - locals);
        assert false;
      }
      c :| Sender(c) && c !in locals && V(c) != start(c);
    }

    /** A remote sender that has lost something leaves nothing to those of other heartbeats. */
    lemma EmptyBeside(start: Address -> View, beats: Address -> nat, c: Address, x: Address)
      requires LatestFirst(start, beats) && OldestFirst(start, beats)
      requires c !in locals && x !in locals && V(c) != start(c) && beats(x) != beats(c)
      ensures V(x).queued == map[]
    {
      assert Sender(c) && Sender(x);
    }

    /** Both orders at once and two heartbeats leave nothing. */
    lemma BothOrders(start: Address -> View, before: map<Address, Items>, beats: Address -> nat, a: Address, b: Address)
      requires Truncated(start, before, beats) && OldestFirst(start, beats)
      requires a in before - locals && b in before - locals && beats(a) != beats(b)
      ensures queue - locals == map[]
    {
      var c := SomeoneLost(start, before, beats);
      var d := if beats(a) == beats(c) then b else a;
      assert Sender(d);
      EmptyBeside(start, beats, c, d);
      forall x | x in queue && x !in locals ensures false {
        if beats(x) == beats(c) {
          EmptyBeside(start, beats, d, x);
        } else {
          EmptyBeside(start, beats, c, x);
        }
      }
    }

    /** Dropping the latest first is dropping the oldest first just where the order is idle. */
    lemma OldestFirstIff(start: Address -> View, before: map<Address, Items>, beats: Address -> nat)
      requires Truncated(start, before, beats)
      ensures OldestFirst(start, beats) <==> OrderIdle(before, beats)
    {
      AllGone(start, before, beats);
      if OldestFirst(start, beats) && !OrderIdle(before, beats) {
        var a, b :| a in before - locals && b in before - locals && beats(a) != beats(b);
        BothOrders(start, before, beats, a, b);
      }
      if OrderIdle(before, beats) {
        forall a, b | a !in locals && b !in locals && beats(b) < beats(a) && V(a) != start(a)
          ensures V(b).queued == map[] {
          assert Sender(a) && Sender(b);
          assert a in before - locals;
          assert b in queue ==> b in queue - locals && b in before - locals;
        }
      }
    }

    /** How far the queue has been reduced: the senders in `left` have not been reached yet. */
    ghost predicate Reducing(start: Address -> View, beats: Address -> nat, left: set<Address>, drop: nat)
      reads this, pendingNonces
    {
      && Total(queue) == config.globalQueue + drop
      && LatestFirst(start, beats)
      && (forall a :: a in left ==> a !in locals)
      && forall a {:trigger Sender(a)} :: Sender(a) ==>
           && QueueCut(start(a), V(a))
           && (a in locals || a in left ==> V(a) == start(a))
           && (drop > 0 && a !in locals && a !in left ==> V(a).queued == map[])
    }

    lemma StartReducing(beats: Address -> nat)
      requires config.globalQueue <= Total(queue)
      ensures Reducing(Snapshot(), beats, queue.Keys - locals, Total(queue) - config.globalQueue)
    {
    }

    lemma EndReducing(start: Address -> View, beats: Address -> nat, left: set<Address>, drop: nat)
      requires Reducing(start, beats, left, drop) && (drop == 0 || left == {}) && NoneEmpty(queue)
      ensures LatestFirst(start, beats) && config.globalQueue <= Total(queue)
      ensures forall a {:trigger Sender(a)} :: Sender(a) ==>
        QueueCut(start(a), V(a)) && (a in locals ==> V(a) == start(a))
      ensures Total(queue) <= config.globalQueue || forall a :: a in queue ==> a in locals
    {
      if drop > 0 {
        forall a | a in queue ensures a in locals {
          assert Sender(a);
        }
      }
    }

    method ReduceNext(addr: Address, drop: nat, ghost start: Address -> View, ghost beats: Address -> nat,
                      ghost left: set<Address>) returns (rest: nat)
      requires Consistent() && drop > 0 && Reducing(start, beats, left, drop)
      requires addr in left && forall a :: a in left ==> beats(a) <= beats(addr)
      modifies this`pending, this`queue, all, pendingNonces
      ensures Consistent() && Shrinks(old(all.locals), old(all.remotes))
      ensures Reducing(start, beats, left - {addr}, rest)
    {
      assert Sender(addr);
      var removed := ReduceQueue(addr, drop);
      rest := drop - removed;
      forall a ensures QueueCut(start(a), V(a)) && (a in locals || a in left - {addr} ==> V(a) == start(a))
        ensures rest > 0 && a !in locals && a !in left - {addr} ==> V(a).queued == map[]
        ensures a != addr && a !in locals && a !in left ==> V(a).queued == map[] {
        assert Sender(a);
        if a == addr {
          QueueCutTransitive(start(a), old(V(a)), V(a));
        } else {
          assert V(a) == old(V(a));
        }
      }
    }

    /** Goes through the senders, those of the latest heartbeat first. */
    method ReduceAll(surplus: nat, ghost start: Address -> View, beats: Address -> nat)
      requires Consistent() && Reducing(start, beats, queue.Keys - locals, surplus)
      modifies this`pending, this`queue, all, pendingNonces
      ensures Consistent() && Shrinks(old(all.locals), old(all.remotes))
      ensures LatestFirst(start, beats) && config.globalQueue <= Total(queue)
      ensures forall a {:trigger Sender(a)} :: Sender(a) ==>
                QueueCut(start(a), V(a)) && (a in locals ==> V(a) == start(a))
      ensures Total(queue) <= config.globalQueue || forall a :: a in queue ==> a in locals
    {
      var drop: nat := surplus;
      var addresses := queue.Keys - locals;
      while drop > 0 && addresses != {}
        invariant Consistent() && Shrinks(old(all.locals), old(all.remotes))
        invariant Reducing(start, beats, addresses, drop)
        decreases addresses
      {
        ghost var latest := LatestBeat(addresses, beats);
        var addr :| addr in addresses && forall a | a in addresses :: beats(a) <= beats(addr);
        drop := ReduceNext(addr, drop, start, beats, addresses);
        addresses := addresses - {addr};
      }
      EndReducing(start, beats, addresses, drop);
    }

    /** Drops queued transactions of remote senders, those of the latest heartbeat first, until
        the queue is within its limit or only local senders are left. */
    method TruncateQueue(beats: Address -> nat)
      requires Consistent()
      modifies this`pending, this`queue, all, pendingNonces
      ensures Consistent() && Shrinks(old(all.locals), old(all.remotes))
      ensures forall a {:trigger Sender(a)} :: Sender(a) ==>
                QueueCut(old(V(a)), V(a)) && (a in locals ==> V(a) == old(V(a)))
      ensures LatestFirst(old(Snapshot()), beats)
      ensures OldestFirst(old(Snapshot()), beats) <==> OrderIdle(old(queue), beats)
      ensures Total(queue) <= config.globalQueue || forall a :: a in queue ==> a in locals
      ensures if old(Total(queue)) <= config.globalQueue then forall a :: V(a) == old(V(a))
              else config.globalQueue <= Total(queue)
    {
      var queued := CountTxs(queue);
      if queued <= config.globalQueue {
        return;
      }
      StartReducing(beats);
      ghost var start := Snapshot();
      ReduceAll(queued - config.globalQueue, start, beats);
      OldestFirstIff(start, old(queue), beats);
    }

    // --------------------------------------------------------------- admission

    method RemoveStep(tx: Tx)
      requires Consistent()
      modifies this`pending, this`queue, all, pendingNonces
      ensures Consistent() && all.Txs() == old(all.Txs()) - {tx} && Shrinks(old(all.locals), old(all.remotes))
      ensures forall a {:trigger Sender(a)} :: Sender(a) ==> V(a) == Lost(old(V(a)), tx)
    {
      assert Sender(tx.sender);
      RemoveTx(tx);
      forall a ensures V(a) == Lost(old(V(a)), tx) {
        assert Sender(a);
      }
    }

    /** Removes the given transactions one by one. */
    method RemoveAll(txs: seq<Tx>)
      requires Consistent()
      modifies this`pending, this`queue, all, pendingNonces
      ensures Consistent() && all.Txs() == old(all.Txs()) - Elements(txs) && Shrinks(old(all.locals), old(all.remotes))
      ensures forall a {:trigger Sender(a)} :: Sender(a) ==> V(a) == LostAll(old(V(a)), txs)
    {
      var i: nat := 0;
      while i < |txs|
        invariant i <= |txs|
        invariant Consistent() && all.Txs() == old(all.Txs()) - Elements(txs[..i])
        invariant Shrinks(old(all.locals), old(all.remotes))
        invariant forall a {:trigger Sender(a)} :: Sender(a) ==> V(a) == LostAll(old(V(a)), txs[..i])
      {
        RemoveStep(txs[i]);
        assert txs[..i + 1][..i] == txs[..i];
        assert Elements(txs[..i + 1]) == Elements(txs[..i]) + {txs[i]};
        i := i + 1;
      }
      assert txs[..i] == txs;
    }

    method SwapPending(prior: Tx, tx: Tx, local: bool)
      requires Tidy() && tx !in all.Txs()
      modifies this`pending, all
      ensures Tidy() && all.Txs() == old(all.Txs()) - {prior} + {tx}
      ensures Grows(old(all.locals), old(all.remotes), tx, local)
      ensures V(tx.sender) == PutPending(old(V(tx.sender)), tx)
      ensures forall a :: a != tx.sender ==> V(a) == old(V(a))
    {
      SetPending(tx.sender, With(ItemsOf(pending, tx.sender), tx));
      all.Remove(prior);
      all.Add(tx, local);
    }

    /** Replaces the pending transaction of the same nonce if the price is right. */
    method ReplacePending(tx: Tx, local: bool) returns (inserted: bool, ghost gone: set<Tx>)
      requires Consistent() && tx !in all.Txs()
      requires tx.nonce in V(tx.sender).pending
      modifies this`pending, all
      ensures Consistent()
      ensures
        var v := old(V(tx.sender));
        && inserted == Outbids(v.pending[tx.nonce], tx, config.priceBump)
        && V(tx.sender) == (if inserted then PutPending(v, tx) else v)
        && gone == (if inserted then {v.pending[tx.nonce]} else {})
      ensures gone <= old(all.Txs()) && all.Txs() == old(all.Txs()) - gone + (if inserted then {tx} else {})
      ensures Grows(old(all.locals), old(all.remotes), tx, local)
      ensures forall a :: a != tx.sender ==> V(a) == old(V(a))
    {
      var list := pending[tx.sender];
      inserted := Outbids(list[tx.nonce], tx, config.priceBump);
      gone := {};
      if inserted {
        ghost var txs := all.Txs();
        assert Sender(tx.sender);
        assert Holds(V(tx.sender), list[tx.nonce]);
        gone := {list[tx.nonce]};
        SwapPending(list[tx.nonce], tx, local);
        ReplacedListed(old(V(tx.sender)), tx.sender, txs, tx);
        forall a ensures Listed(V(a), a, all.Txs()) {
          assert Sender(a);
          assert Listed(old(V(a)), a, txs);
        }
      }
    }

    /** Queues a new transaction, replacing a cheaper one of the same nonce. */
    method QueueNew(tx: Tx, local: bool) returns (inserted: bool, replaced: bool, ghost gone: set<Tx>)
      requires Consistent() && tx !in all.Txs()
      requires tx.nonce !in V(tx.sender).pending
      modifies this`queue, all
      ensures Consistent()
      ensures
        var v := old(V(tx.sender));
        && inserted == (tx.nonce in v.queued ==> Outbids(v.queued[tx.nonce], tx, config.priceBump))
        && replaced == (inserted && tx.nonce in v.queued)
        && V(tx.sender) == (if inserted then PutQueued(v, tx) else v)
        && gone == (if replaced then {v.queued[tx.nonce]} else {})
      ensures gone <= old(all.Txs()) && all.Txs() == old(all.Txs()) - gone + (if inserted then {tx} else {})
      ensures Grows(old(all.locals), old(all.remotes), tx, local)
      ensures forall a :: a != tx.sender ==> V(a) == old(V(a))
    {
      ghost var v, txs := V(tx.sender), all.Txs();
      assert Sender(tx.sender);
      inserted, replaced := EnqueueTx(tx, local, true);
      gone := if replaced then {v.queued[tx.nonce]} else {};
      assert replaced ==> Holds(v, v.queued[tx.nonce]);
      if inserted {
        QueuedListed(v, tx.sender, txs, tx);
      }
      forall a ensures Listed(V(a), a, all.Txs()) {
        assert Sender(a);
        assert Listed(old(V(a)), a, txs);
        if a != tx.sender {
          ListedElsewhere(V(a), a, txs, all.Txs());
        }
      }
    }

    /** Files a validated transaction in place of its rivals, or not at all. */
    method Insert(tx: Tx, local: bool) returns (r: AddResult)
      requires Consistent() && tx !in all.Txs()
      modifies this`pending, this`queue, all
      ensures Consistent()
      ensures r == FilingAnswer(old(all.Txs()), tx, config.priceBump)
      ensures all.Txs() == FilingLeaves(old(all.Txs()), tx, config.priceBump)
      ensures Grows(old(all.locals), old(all.remotes), tx, local)
      ensures V(tx.sender) == if r.Added? then Received(old(V(tx.sender)), tx) else old(V(tx.sender))
      ensures forall a :: a != tx.sender ==> V(a) == old(V(a))
    {
      assert Sender(tx.sender);
      RivalsOf(V(tx.sender), tx.sender, all.Txs(), tx);
      ghost var gone;
      if tx.nonce in ItemsOf(pending, tx.sender) {
        var inserted;
        inserted, gone := ReplacePending(tx, local);
        r := if inserted then Added(true) else Rejected(ReplaceUnderpriced);
      } else {
        var inserted, replaced;
        inserted, replaced, gone := QueueNew(tx, local);
        r := if inserted then Added(replaced) else Rejected(ReplaceUnderpriced);
      }
    }

    /** Marks a sender as local and migrates its transactions. */
    method MarkLocal(addr: Address)
      requires Consistent()
      modifies this`locals, all
      ensures Consistent() && all.Txs() == old(all.Txs())
      ensures all.remotes <= old(all.remotes)
      ensures locals == old(locals) + {addr}
      ensures forall a :: V(a) == old(V(a)) && E(a) == old(E(a))
      ensures Apart() && (old(Apart()) ==> Migrated(old(all.locals), addr))
    {
      locals := locals + {addr};
      var migrated := all.RemoteToLocals(locals);
    }

    /** Files a validated transaction and marks its sender as local on request. */
    method FileTx(tx: Tx, local: bool, isLocal: bool) returns (r: AddResult)
      requires Consistent() && tx !in all.Txs()
      modifies this`pending, this`queue, this`locals, all
      ensures Consistent()
      ensures r == FilingAnswer(old(all.Txs()), tx, config.priceBump)
      ensures all.Txs() == FilingLeaves(old(all.Txs()), tx, config.priceBump)
      ensures all.remotes <= old(all.remotes) + (if isLocal then {} else {tx})
      ensures !local ==> Grows(old(all.locals), old(all.remotes), tx, isLocal)
      ensures forall a :: V(a) == if a == tx.sender && r.Added? then Received(old(V(a)), tx) else old(V(a))
      ensures locals == old(locals) + NewLocal(old(V(tx.sender)), tx, local && r.Added?)
      ensures old(Apart()) && (isLocal || tx.sender !in old(locals)) ==> Apart()
      ensures old(Apart()) && (isLocal || tx.sender !in old(locals)) ==> Migrated(old(all.locals), tx.sender)
    {
      var wasPending := tx.nonce in ItemsOf(pending, tx.sender);
      r := Insert(tx, isLocal);
      label filed:
      if r.Added? && !wasPending && local && tx.sender !in locals {
        MarkLocal(tx.sender);
      }
      forall a ensures V(a) == old@filed(V(a)) {
      }
    }

    /** The sender that becomes local: that of a queued transaction from the node itself. */
    function NewLocal(v: View, tx: Tx, local: bool): set<Address> {
      if local && tx.nonce !in v.pending then {tx.sender} else {}
    }

    /** Drops transactions for a newcomer if the pool is full. */
    method MakeRoom(s: Submission, local: bool)
      requires Consistent() && RulesFor(local).Refusal(all.Txs(), s).None?
      modifies this`pending, this`queue, all, pendingNonces
      ensures Consistent() && all.Txs() == old(RulesFor(local).Remaining(all.Txs(), s))
      ensures Shrinks(old(all.locals), old(all.remotes))
      ensures forall a {:trigger Sender(a)} :: Sender(a) ==>
                V(a) == LostAll(old(V(a)), old(RulesFor(local).Evictions(all.Txs(), s)))
    {
      if RulesFor(local).Overfills(all.slots, s.tx) {
        RemoveAll(s.room.drop);
      }
    }

    /** Validates a transaction and files it, dropping others if the pool is full. */
    method AddTx(s: Submission, local: bool) returns (r: AddResult)
      requires Consistent()
      modifies this`pending, this`queue, this`locals, all, pendingNonces
      ensures Consistent()
      ensures r == old(RulesFor(local).Answer(all.Txs(), s))
      ensures all.Txs() == old(RulesFor(local).TxsAfter(all.Txs(), s))
      ensures forall a {:trigger Sender(a)} :: Sender(a) ==>
                V(a) == old(RulesFor(local).ViewAfter(a, V(a), all.Txs(), s))
      ensures locals == old(locals) +
        NewLocal(LostAll(old(V(s.tx.sender)), old(RulesFor(local).Evictions(all.Txs(), s))), s.tx, local && r.Added?)
      ensures r.Rejected? ==> all.remotes <= old(all.remotes)
      ensures old(Apart()) ==> Apart() && Migrated(old(all.locals), s.tx.sender)
      ensures all.remotes <= old(all.remotes) + (if old(RulesFor(local).IsLocal(s.tx.sender)) then {} else {s.tx})
      ensures !local ==> Grows(old(all.locals), old(all.remotes), s.tx, old(RulesFor(local).IsLocal(s.tx.sender)))
    {
      var rules := RulesFor(local);
      var error := rules.EarlyError(all.Has(s.tx), all.slots, s);
      if error.Some? {
        return Rejected(error.value);
      }
      MakeRoom(s, local);
      label roomy:
      assert Sender(s.tx.sender);
      r := FileTx(s.tx, local, rules.IsLocal(s.tx.sender));
      forall a ensures V(a) == rules.ViewAfter(a, old(V(a)), old(all.Txs()), s) {
        assert Sender(a);
        assert old@roomy(V(a)) == LostAll(old(V(a)), rules.Evictions(old(all.Txs()), s));
      }
    }

    /** The first transactions of a batch have been answered. */
    ghost predicate Answered(rules: Rules, start: Address -> View, txs: set<Tx>, batch: seq<Submission>)
      reads this, all, pendingNonces
    {
      && all.Txs() == TxsAfterAll(rules, txs, batch)
      && forall a {:trigger Sender(a)} :: Sender(a) ==> V(a) == ViewAfterAll(a, start(a), rules, txs, batch)
    }

    method AddNext(s: Submission, local: bool, ghost rules: Rules, ghost start: Address -> View, ghost txs: set<Tx>,
                   ghost done: seq<Submission>) returns (r: AddResult)
      requires Consistent() && Answered(rules, start, txs, done)
      requires RulesFor(local) == rules.(locals := locals) && (local || locals == rules.locals)
      modifies this`pending, this`queue, this`locals, all, pendingNonces
      ensures Consistent() && Answered(rules, start, txs, done + [s])
      ensures r == rules.Answer(TxsAfterAll(rules, txs, done), s)
      ensures RulesFor(local) == rules.(locals := locals) && (local || locals == rules.locals)
      ensures old(Apart()) ==> Apart()
    {
      LocalsAside(rules, locals, all.Txs(), s);
      r := AddTx(s, local);
      assert (done + [s])[..|done|] == done;
      forall a ensures V(a) == ViewAfterAll(a, start(a), rules, txs, done + [s]) {
        assert Sender(a);
        LocalsAsideView(a, old(V(a)), rules, old(locals), old(all.Txs()), s);
      }
    }

    /** Adds a batch of transactions; the senders that need promotion are dirty. */
    method AddTxs(batch: seq<Submission>, local: bool) returns (results: seq<AddResult>, dirty: set<Address>)
      requires Consistent()
      modifies this`pending, this`queue, this`locals, all, pendingNonces
      ensures Consistent()
      ensures results == Answers(old(RulesFor(local)), old(all.Txs()), batch) && |results| == |batch|
      ensures dirty == Dirtied(results, batch)
      ensures Answered(old(RulesFor(local)), old(Snapshot()), old(all.Txs()), batch)
      ensures !local ==> locals == old(locals)
      ensures old(Apart()) ==> Apart()
    {
      results, dirty := [], {};
      ghost var rules, start, txs := RulesFor(local), Snapshot(), all.Txs();
      var i: nat := 0;
      while i < |batch|
        invariant Tallied(rules, txs, batch, i, results, dirty)
        invariant Consistent() && Answered(rules, start, txs, batch[..i])
        invariant RulesFor(local) == rules.(locals := locals) && (local || locals == rules.locals)
        invariant old(Apart()) ==> Apart()
      {
        TalliedNext(rules, txs, batch, i, results, dirty);
        var r := AddNext(batch[i], local, rules, start, txs, batch[..i]);
        if r == Added(false) {
          dirty := dirty + {batch[i].tx.sender};
        }
        results := results + [r];
        i := i + 1;
      }
      assert batch[..i] == batch;
    }

    /** Raises or lowers the price floor; raising it drops the remote
        transactions whose tip is below it. */
    method SetGasPrice(price: nat)
      requires Consistent()
      modifies this`pending, this`queue, this`gasPrice, all, pendingNonces
      ensures Consistent() && gasPrice == price && Shrinks(old(all.locals), old(all.remotes))
      ensures all.Txs() == old(all.Txs()) -
        (set tx | tx in old(all.remotes) && old(gasPrice) < price && tx.tipCap < price)
      ensures forall a {:trigger Sender(a)} :: Sender(a) ==> Keeps(old(V(a)), V(a), E(a))
    {
      var before := gasPrice;
      gasPrice := price;
      if before < price {
        var drop := all.RemotesBelowTip(price);
        RemoveAll(drop);
        forall a ensures Keeps(old(V(a)), V(a), E(a)) {
          assert Sender(a);
          LostAllKeeps(old(V(a)), E(a), drop);
        }
        assert Elements(drop) == set tx | tx in old(all.remotes) && old(gasPrice) < price && tx.tipCap < price;
      }
    }

    /** Evicts the queues of remote senders that have been quiet for too long. */
    method EvictExpired(expired: set<Address>)
      requires Consistent()
      modifies this`pending, this`queue, all, pendingNonces
      ensures Consistent() && Shrinks(old(all.locals), old(all.remotes))
      ensures forall a {:trigger Sender(a)} :: Sender(a) ==>
                V(a) == if a in expired && a !in locals then old(V(a)).(queued := map[]) else old(V(a))
    {
      var todo := queue.Keys * expired - locals;
      while todo != {}
        invariant todo <= expired - locals
        invariant Consistent() && Shrinks(old(all.locals), old(all.remotes))
        invariant forall a {:trigger Sender(a)} :: Sender(a) ==>
                    V(a) == if a in expired && a !in locals && a !in todo then old(V(a)).(queued := map[])
                         else old(V(a))
        decreases todo
      {
        var addr :| addr in todo;
        assert Sender(addr);
        RemoveHighest(addr, |ItemsOf(queue, addr)|);
        todo := todo - {addr};
      }
    }

    // ------------------------------------------------------------ head changes

    /** The transactions of a sender as promotion finds them in a run: as they are now or, if
        the run switches to a new head, with those put back that its reorganisation dropped. */
    ghost function ReadyView(reset: Option<ResetOutcome>, a: Address): View
      reads this, all, pendingNonces
    {
      if Switches(reset)
      then ViewAfterAll(a, V(a).(nonce := reset.value.head.state.nonce(a)), RulesAt(reset.value.head), all.Txs(),
                        reset.value.head.reinject)
      else V(a)
    }

    ghost function ReadyTxs(reset: Option<ResetOutcome>): set<Tx>
      reads this, all
    {
      if Switches(reset) then TxsAfterAll(RulesAt(reset.value.head), all.Txs(), reset.value.head.reinject)
      else all.Txs()
    }

    /** The senders with a pending transaction that a new head has used up and that is dropped
        to make room for one put back. */
    ghost function Swamped(head: Head): (senders: set<Address>)
      reads this, all
      ensures forall a :: a in senders <==>
        Hits(EvictedBy(RulesAt(head), all.Txs(), head.reinject), ItemsOf(pending, a), head.state.nonce(a))
    {
      var gone := EvictedBy(RulesAt(head), all.Txs(), head.reinject);
      set a | a in pending && Hits(gone, pending[a], head.state.nonce(a))
    }

    /** Nobody's virtual nonce sinks at a head if there is room for the transactions put back. */
    lemma NoneSwamped(head: Head)
      requires all.Valid() && all.slots + SlotsOf(TxsOf(head.reinject)) <= config.Capacity()
      ensures Swamped(head) == {}
    {
      BatchFits(RulesAt(head), all.Txs(), head.reinject);
    }

    /** Nor does it if they are put back without dropping others. */
    lemma NoneSwampedByNone(head: Head)
      requires forall i :: 0 <= i < |head.reinject| ==> head.reinject[i].room.drop == []
      ensures Swamped(head) == {}
    {
      NothingEvicted(RulesAt(head), all.Txs(), head.reinject);
    }

    /** Switches to a new chain head and puts back the transactions that its
        reorganisation dropped. */
    method Reset(head: Head)
      requires Consistent()
      modifies this, all, pendingNonces
      ensures Consistent()
      ensures fresh(pendingNonces) && state == head.state && maxGas == head.maxGas
      ensures gasPrice == old(gasPrice) && locals == old(locals) && sunk == old(Swamped(head))
      ensures old(Apart()) ==> Apart()
      ensures all.Txs() == old(ReadyTxs(Some(Switched(head))))
      ensures forall a {:trigger Sender(a)} :: Sender(a) ==> V(a) == old(ReadyView(Some(Switched(head)), a))
    {
      sunk := Swamped(head);
      SwitchHead(head);
      var results, dirty := AddTxs(head.reinject, false);
    }

    method SwitchHead(head: Head)
      requires Consistent()
      modifies this`state, this`maxGas, this`pendingNonces
      ensures Consistent()
      ensures fresh(pendingNonces) && state == head.state && maxGas == head.maxGas
      ensures forall a :: V(a) == old(V(a)).(nonce := head.state.nonce(a))
    {
      state, maxGas := head.state, head.maxGas;
      pendingNonces := new TxNoncer(head.state.nonce);
      forall a ensures Listed(V(a), a, all.Txs()) {
        assert Sender(a);
        assert Listed(old(V(a)), a, all.Txs());
      }
    }

    /** Sets every sender's virtual nonce to one above its highest pending nonce. */
    method UpdateNonces()
      requires Consistent()
      modifies pendingNonces
      ensures Consistent()
      ensures forall a {:trigger Sender(a)} :: Sender(a) ==> V(a) == Finished(old(V(a)))
    {
      var todo := pending.Keys;
      while todo != {}
        invariant todo <= pending.Keys
        invariant forall a {:trigger Sender(a)} :: Sender(a) ==>
                    V(a) == if a in todo then old(V(a)) else Finished(old(V(a)))
        decreases todo
      {
        var addr :| addr in todo;
        assert Sender(addr);
        HighestOf(pending[addr]);
        var top: nat :| IsHighest(pending[addr], top);
        pendingNonces.Set(addr, top + 1);
        todo := todo - {addr};
      }
      forall a ensures Listed(V(a), a, all.Txs()) {
        assert Sender(a);
        assert Listed(old(V(a)), a, all.Txs());
      }
    }

    ghost predicate PendingWithinLimits()
      reads this
    {
      WithinSlots(pending, locals, config)
    }

    ghost predicate QueueWithinLimits()
      reads this
    {
      WithinQueue(queue, locals, config)
    }

    /** The remote senders that are cut are left with one common level of pending transactions,
        not below the guaranteed slots, not above them if the pool stays over its limit, and one
        more for each of them would be too many. */
    ghost predicate Levels(level: nat, cut: set<Address>)
      reads this
    {
      && config.accountSlots <= level && (Total(pending) <= config.globalSlots || level == config.accountSlots)
      && (forall a {:trigger Sender(a)} :: Sender(a) && a in cut ==> a !in locals && |ItemsOf(pending, a)| == level)
      && (cut == {} || config.globalSlots < Total(pending) + |cut|)
    }

    method CropPending() returns (ghost level: nat, ghost cut: set<Address>)
      requires Consistent()
      modifies this`pending, all, pendingNonces
      ensures Consistent() && Shrinks(old(all.locals), old(all.remotes))
      ensures forall a {:trigger Sender(a)} :: Sender(a) ==> CutTo(old(V(a)), V(a), a in cut, level)
      ensures Levels(level, cut) && PendingWithinLimits()
      ensures old(Total(pending)) <= config.globalSlots ==> forall a :: V(a) == old(V(a))
    {
      level, cut := TruncatePending();
      forall a | a !in locals ensures |V(a).pending| <= level {
        assert Sender(a);
      }
    }

    method CropQueue(beats: Address -> nat)
      requires Consistent()
      modifies this`pending, this`queue, all, pendingNonces
      ensures Consistent() && Shrinks(old(all.locals), old(all.remotes))
      ensures forall a {:trigger Sender(a)} :: Sender(a) ==> QueueCut(old(V(a)), V(a))
      ensures QueueWithinLimits() && pending == old(pending)
      ensures old(Total(queue)) <= config.globalQueue ==> forall a :: V(a) == old(V(a))
    {
      TruncateQueue(beats);
      forall a ensures ItemsOf(pending, a) == ItemsOf(old(pending), a) {
        assert Sender(a);
        assert V(a).pending == old(V(a)).pending;
      }
      SameLists(pending, old(pending));
    }

    /** Brings both lists within their limits. `mid` is how the first cut leaves everyone. */
    method Truncate(beats: Address -> nat)
        returns (ghost level: nat, ghost cut: set<Address>, ghost mid: Address -> View)
      requires Consistent()
      modifies this`pending, this`queue, all, pendingNonces
      ensures Consistent() && Shrinks(old(all.locals), old(all.remotes))
      ensures forall a {:trigger Sender(a)} :: Sender(a) ==>
                CutTo(old(V(a)), mid(a), a in cut, level) && QueueCut(mid(a), V(a))
      ensures Levels(level, cut) && PendingWithinLimits() && QueueWithinLimits()
      ensures old(Total(pending)) <= config.globalSlots && old(Total(queue)) <= config.globalQueue
              ==> forall a :: V(a) == old(V(a))
    {
      level, cut := CropPending();
      mid := Snapshot();
      CropQueue(beats);
    }

    /** The last part of every run: limits are enforced and the virtual nonces set. */
    method FinishRun(beats: Address -> nat) returns (ghost level: nat, ghost cut: set<Address>)
      requires Consistent()
      modifies this`pending, this`queue, all, pendingNonces
      ensures Consistent() && Shrinks(old(all.locals), old(all.remotes))
      ensures forall a {:trigger Sender(a)} :: Sender(a) ==> Ended(old(V(a)), V(a), a in cut, level)
      ensures Levels(level, cut) && PendingWithinLimits() && QueueWithinLimits()
      ensures old(Total(pending)) <= config.globalSlots && old(Total(queue)) <= config.globalQueue
              ==> forall a {:trigger Sender(a)} :: Sender(a) ==> V(a) == Finished(old(V(a)))
    {
      ghost var mid;
      level, cut, mid := Truncate(beats);
      ghost var left := Snapshot();
      UpdateNonces();
      forall a ensures Ended(old(V(a)), V(a), a in cut, level) {
        assert Sender(a);
        assert CutTo(old(V(a)), mid(a), a in cut, level) && QueueCut(mid(a), left(a)) && V(a) == Finished(left(a));
      }
    }

    /** Promotes every queued sender and re-checks every pending one. */
    method Recheck()
      requires Consistent()
      modifies this`pending, this`queue, all, pendingNonces
      ensures Consistent() && Shrinks(old(all.locals), old(all.remotes))
      ensures forall a {:trigger Sender(a)} :: Sender(a) ==> Served(old(V(a)), V(a), E(a), QueueLimit(a), Overhaul)
    {
      PromoteExecutables(queue.Keys);
      label promoted:
      DemoteUnexecutables();
      forall a ensures Served(old(V(a)), V(a), E(a), QueueLimit(a), Overhaul) {
        assert Sender(a);
        if a !in old(queue) {
          PromotedNothing(old(V(a)), E(a), QueueLimit(a));
        }
        assert IsPromotion(old(V(a)), E(a), QueueLimit(a), old@promoted(V(a)));
      }
    }

    /** Promotes dirty senders; no executable transaction of theirs stays queued. */
    method PromoteDirty(dirty: set<Address>)
      requires Consistent()
      modifies this`pending, this`queue, all, pendingNonces
      ensures Consistent() && Shrinks(old(all.locals), old(all.remotes))
      ensures forall a {:trigger Sender(a)} :: Sender(a) ==>
                if a in dirty then Served(old(V(a)), V(a), E(a), QueueLimit(a), Promote) else V(a) == old(V(a))
      ensures forall a {:trigger Sender(a)} :: Sender(a) && a in dirty ==>
                Promotes(old(V(a)), V(a), E(a), QueueLimit(a))
    {
      PromoteExecutables(dirty);
      forall a | a in dirty ensures Served(old(V(a)), V(a), E(a), QueueLimit(a), Promote)
        ensures Promotes(old(V(a)), V(a), E(a), QueueLimit(a)) {
        assert Sender(a);
        if a !in old(queue) {
          PromotedNothing(old(V(a)), E(a), QueueLimit(a));
        }
        PromotionPromotes(old(V(a)), E(a), QueueLimit(a), V(a));
      }
    }

    /** Moves to the new head if there is one. */
    method Prepare(reset: Option<ResetOutcome>)
      requires Consistent()
      modifies this, all, pendingNonces
      ensures Consistent() && gasPrice == old(gasPrice) && locals == old(locals) && (old(Apart()) ==> Apart())
      ensures pendingNonces == old(pendingNonces) || fresh(pendingNonces)
      ensures all.Txs() == old(ReadyTxs(reset))
      ensures forall a {:trigger Sender(a)} :: Sender(a) ==> V(a) == old(ReadyView(reset, a))
      ensures if Switches(reset)
              then state == reset.value.head.state && maxGas == reset.value.head.maxGas
                   && sunk == old(Swamped(reset.value.head))
              else state == old(state) && maxGas == old(maxGas) && sunk == old(sunk)
    {
      if Switches(reset) {
        Reset(reset.value.head);
      }
    }

    /** Serves the senders: all of them after a reset, else only the dirty ones. */
    method Check(reset: bool, dirty: set<Address>)
      requires Consistent()
      modifies this`pending, this`queue, all, pendingNonces
      ensures Consistent() && Shrinks(old(all.locals), old(all.remotes))
      ensures forall a {:trigger Sender(a)} :: Sender(a) ==>
                Served(old(V(a)), V(a), E(a), QueueLimit(a), DutyTo(a, reset, dirty))
      ensures Total(pending) <= |old(all.Txs())| && Total(queue) <= |old(all.Txs())|
    {
      if reset {
        Recheck();
      } else {
        PromoteDirty(dirty);
      }
      Counted();
      SubsetSize(all.Txs(), old(all.Txs()));
    }

    /** So few transactions that neither the pending nor the queued ones exceed their limit. */
    ghost predicate Roomy(txs: set<Tx>) {
      |txs| <= config.globalSlots && |txs| <= config.globalQueue
    }

    /** The pool reaches no limit in a run, and the sender does not either. */
    ghost predicate Uncrowded(reset: Option<ResetOutcome>, a: Address)
      reads this, all, pendingNonces
    {
      && Roomy(ReadyTxs(reset))
      && Fits(ReadyView(reset, a).queued, QueueLimit(a))
    }

    lemma Counted()
      requires Consistent()
      ensures Total(pending) <= |all.Txs()| && Total(queue) <= |all.Txs()|
    {
      forall a ensures Owned(ItemsOf(pending, a), a) && ItemsOf(pending, a).Values <= all.Txs()
        ensures Owned(ItemsOf(queue, a), a) && ItemsOf(queue, a).Values <= all.Txs() {
        assert Sender(a);
        assert forall n :: n in V(a).pending ==> Holds(V(a), V(a).pending[n]);
        assert forall n :: n in V(a).queued ==> Holds(V(a), V(a).queued[n]);
      }
      SumLensWithin(pending.Keys, pending, all.Txs());
      SumLensWithin(queue.Keys, queue, all.Txs());
    }

    function LimitsAfter(reset: Option<ResetOutcome>, a: Address): Limits
      reads this
    {
      (if Switches(reset) then RulesAt(reset.value.head) else RulesFor(false)).LimitsOf(a)
    }

    /** Whether a sender's virtual nonce will be at or above its chain nonce. */
    ghost predicate Afloat(reset: Option<ResetOutcome>, a: Address)
      reads this, all, pendingNonces
    {
      if Switches(reset) then a !in Swamped(reset.value.head) else Floored(V(a), E(a))
    }

    /** How promotion finds the senders that were settled, if their nonces are not lowered. */
    lemma AllPoised(reset: Option<ResetOutcome>, dirty: set<Address>)
      requires Consistent()
      ensures forall a {:trigger Sender(a)} :: Sender(a) && Steady(V(a), E(a), LimitsAfter(reset, a)) ==>
        Poised(ReadyView(reset, a), LimitsAfter(reset, a), DutyTo(a, reset.Some?, dirty), Afloat(reset, a))
    {
      forall a | Steady(V(a), E(a), LimitsAfter(reset, a))
        ensures Poised(ReadyView(reset, a), LimitsAfter(reset, a), DutyTo(a, reset.Some?, dirty), Afloat(reset, a)) {
        assert Sender(a);
        SettledIsSettling(V(a), E(a));
        if Switches(reset) {
          PutBack(a, V(a), E(a), RulesAt(reset.value.head), all.Txs(), reset.value.head.reinject);
        }
      }
    }

    /** How a run treats a sender. */
    ghost function TermsOf(a: Address, reset: bool, dirty: set<Address>, level: nat, cut: set<Address>): Terms
      reads this
    {
      Terms(QueueLimit(a), DutyTo(a, reset, dirty), a in cut, level)
    }

    /** A run once its head is set: senders are served, and the limits enforced. */
    method Work(reset: bool, dirty: set<Address>, beats: Address -> nat)
        returns (ghost level: nat, ghost cut: set<Address>)
      requires Consistent()
      modifies this`pending, this`queue, all, pendingNonces
      ensures Consistent() && Shrinks(old(all.locals), old(all.remotes))
      ensures forall a {:trigger Sender(a)} :: Sender(a) ==>
                && Ran(old(V(a)), V(a), E(a), TermsOf(a, reset, dirty, level, cut))
                && (Roomy(old(all.Txs())) && Fits(old(V(a)).queued, QueueLimit(a))
                    ==> V(a) == AfterRun(old(V(a)), E(a), DutyTo(a, reset, dirty)))
      ensures Levels(level, cut) && PendingWithinLimits() && QueueWithinLimits()
    {
      Check(reset, dirty);
      label checked:
      level, cut := FinishRun(beats);
      forall a
        ensures Ran(old(V(a)), V(a), E(a), TermsOf(a, reset, dirty, level, cut))
        ensures Roomy(old(all.Txs())) && Fits(old(V(a)).queued, QueueLimit(a))
                ==> V(a) == AfterRun(old(V(a)), E(a), DutyTo(a, reset, dirty)) {
        assert Sender(a);
        ServedRoomy(old(V(a)), old@checked(V(a)), E(a), QueueLimit(a), DutyTo(a, reset, dirty));
        assert Served(old(V(a)), old@checked(V(a)), E(a), QueueLimit(a), DutyTo(a, reset, dirty));
      }
    }

    /** A run with its new head, if there is one. */
    method Serve(reset: Option<ResetOutcome>, dirty: set<Address>, beats: Address -> nat)
        returns (ghost level: nat, ghost cut: set<Address>)
      requires Consistent()
      modifies this, all, pendingNonces
      ensures Consistent() && gasPrice == old(gasPrice) && locals == old(locals) && all.Txs() <= old(ReadyTxs(reset))
      ensures pendingNonces == old(pendingNonces) || fresh(pendingNonces)
      ensures old(Apart()) ==> Apart()
      ensures forall a {:trigger Sender(a)} :: Sender(a) ==>
                && E(a) == old(LimitsAfter(reset, a))
                && Ran(old(ReadyView(reset, a)), V(a), E(a), TermsOf(a, reset.Some?, dirty, level, cut))
                && (old(Uncrowded(reset, a)) ==>
                      V(a) == AfterRun(old(ReadyView(reset, a)), E(a), DutyTo(a, reset.Some?, dirty)))
      ensures Levels(level, cut) && PendingWithinLimits() && QueueWithinLimits()
      ensures if Switches(reset)
              then state == reset.value.head.state && maxGas == reset.value.head.maxGas
                   && sunk == old(Swamped(reset.value.head))
              else state == old(state) && maxGas == old(maxGas) && sunk == old(sunk)
    {
      Prepare(reset);
      label ready:
      level, cut := Work(reset.Some?, dirty, beats);
      forall a
        ensures Ran(old(ReadyView(reset, a)), V(a), E(a), TermsOf(a, reset.Some?, dirty, level, cut))
        ensures old(Uncrowded(reset, a)) ==>
          V(a) == AfterRun(old(ReadyView(reset, a)), E(a), DutyTo(a, reset.Some?, dirty)) {
        assert Sender(a);
        assert old@ready(V(a)) == old(ReadyView(reset, a));
      }
    }

    /** One background run: after a reset request every sender is promoted and re-checked,
        otherwise only the dirty ones are promoted. What comes of each sender is told by what
        it has before the run and by whose pending transactions are cut to which level: its virtual
        nonce ends below the chain nonce exactly if it is before and there is no new head, or
        if a pending transaction that the new head has used up is dropped for one put back. */
    method RunReorg(reset: Option<ResetOutcome>, dirty: set<Address>, beats: Address -> nat)
        returns (ghost level: nat, ghost cut: set<Address>)
      requires Consistent()
      modifies this, all, pendingNonces
      ensures Consistent() && gasPrice == old(gasPrice) && locals == old(locals) && all.Txs() <= old(ReadyTxs(reset))
      ensures pendingNonces == old(pendingNonces) || fresh(pendingNonces)
      ensures old(Apart()) ==> Apart()
      ensures forall a {:trigger Sender(a)} :: Sender(a) ==>
        RunOutcome(old(V(a)), old(E(a)), old(ReadyView(reset, a)), V(a), E(a),
                   TermsOf(a, reset.Some?, dirty, level, cut), old(Afloat(reset, a)), old(Uncrowded(reset, a)))
      ensures Levels(level, cut) && PendingWithinLimits() && QueueWithinLimits()
      ensures if Switches(reset)
              then state == reset.value.head.state && maxGas == reset.value.head.maxGas
                   && sunk == old(Swamped(reset.value.head))
              else state == old(state) && maxGas == old(maxGas) && sunk == old(sunk)
    {
      AllPoised(reset, dirty);
      level, cut := Serve(reset, dirty, beats);
      forall a ensures RunOutcome(old(V(a)), old(E(a)), old(ReadyView(reset, a)), V(a), E(a),
                                  TermsOf(a, reset.Some?, dirty, level, cut), old(Afloat(reset, a)),
                                  old(Uncrowded(reset, a))) {
        assert Sender(a);
        RunEnds(old(V(a)), old(E(a)), old(ReadyView(reset, a)), V(a), E(a), TermsOf(a, reset.Some?, dirty, level, cut),
                old(Afloat(reset, a)), old(Uncrowded(reset, a)));
      }
    }

    /** An operation that leaves the head alone. */
    method ApplyHere(op: Op)
      requires Consistent() && !op.Background?
      modifies this, all, pendingNonces
      ensures Consistent() && pendingNonces == old(pendingNonces) && (old(Apart()) ==> Apart())
      ensures state == old(state) && maxGas == old(maxGas) && sunk == old(sunk)
      ensures forall a {:trigger Sender(a)} :: Sender(a) ==> Stays(old(V(a)), V(a), E(a))
    {
      match op {
        case Submit(batch, local) =>
          ghost var rules, txs := RulesFor(local), all.Txs();
          var results, dirty := AddTxs(batch, local);
          forall a ensures Keeps(old(V(a)), V(a), E(a)) {
            assert Sender(a);
            BatchKeeps(a, old(V(a)), rules, txs, batch);
          }
        case Reprice(price) =>
          SetGasPrice(price);
        case Evict(expired) =>
          EvictExpired(expired);
      }
      forall a ensures Stays(old(V(a)), V(a), E(a)) {
        assert Sender(a);
        if !op.Evict? {
          KeepsStays(old(V(a)), V(a), E(a));
        }
      }
    }

    /** One operation of the pool. */
    method Apply(op: Op)
      requires Consistent()
      modifies this, all, pendingNonces
      ensures Consistent()
      ensures forall a {:trigger Sender(a)} :: Sender(a) && Steady(old(V(a)), old(E(a)), E(a)) ==>
                && Settled(V(a), E(a))
                && (Floored(V(a), E(a)) <==> if SwitchesHead(op) then a !in sunk else Floored(old(V(a)), old(E(a))))
      ensures pendingNonces == old(pendingNonces) || fresh(pendingNonces)
      ensures state == StateAfter(old(state), op)
      ensures old(Apart()) ==> Apart()
      ensures sunk == if SwitchesHead(op) then old(Swamped(op.reset.value.head)) else old(sunk)
    {
      if op.Background? {
        ghost var level, cut := RunReorg(op.reset, op.dirty, op.beats);
      } else {
        ApplyHere(op);
      }
    }

    /** Whatever the operations are, the lists and the table agree at every point; and as long
        as no new head lowers a nonce, every sender's pending nonces run without a gap from its
        chain nonce up to its virtual nonce, which is below the chain nonce exactly for the
        senders recorded at the last head change. No local sender has a remote transaction. */
    method Run(ops: seq<Op>)
      requires Consistent() && AllSettled() && Charted() && Apart()
      modifies this, all, pendingNonces
      ensures Consistent() && Apart()
      ensures old(NeverLowers(state, ops)) ==> AllSettled() && Charted()
    {
      var i: nat := 0;
      ghost var steady := NeverLowers(state, ops);
      while i < |ops|
        invariant i <= |ops|
        invariant Consistent() && Apart()
        invariant steady ==> AllSettled() && Charted() && NeverLowers(state, ops[i..])
        invariant pendingNonces == old(pendingNonces) || fresh(pendingNonces)
      {
        assert ops[i..][0] == ops[i] && ops[i..][1..] == ops[i + 1..];
        label before:
        Apply(ops[i]);
        forall a ensures steady ==> Settled(V(a), E(a)) && (Floored(V(a), E(a)) <==> a !in sunk) {
          assert Sender(a);
          assert steady ==> Settled(old@before(V(a)), old@before(E(a)));
          assert steady ==> old@before(state).nonce(a) <= state.nonce(a);
        }
        i := i + 1;
      }
    }
  }

  datatype Op =
    | Submit(batch: seq<Submission>, local: bool)
    | Reprice(price: nat)
    | Evict(expired: set<Address>)
    | Background(reset: Option<ResetOutcome>, dirty: set<Address>, beats: Address -> nat)

  predicate SwitchesHead(op: Op) {
    op.Background? && Switches(op.reset)
  }

  function DutyTo(a: Address, reset: bool, dirty: set<Address>): Duty {
    if reset then Overhaul else if a in dirty then Promote else Rest
  }

  /** The chain state the pool works on after an operation. */
  function StateAfter(state: ChainState, op: Op): ChainState {
    if SwitchesHead(op) then op.reset.value.head.state else state
  }

  /** No operation moves the pool to a head where some nonce is lower. */
  ghost predicate NeverLowers(state: ChainState, ops: seq<Op>)
    decreases |ops|
  {
    ops == [] ||
    (var next := StateAfter(state, ops[0]);
     (forall a: Address :: state.nonce(a) <= next.nonce(a)) && NeverLowers(next, ops[1..]))
  }

  /** A reset request either reaches the new head or is given up. */
  datatype ResetOutcome = Skipped | Switched(head: Head)

  predicate Switches(reset: Option<ResetOutcome>) {
    reset.Some? && reset.value.Switched?
  }

  /** A new chain head: its state and gas limit, and the transactions of blocks
      that are no longer part of the chain. */
  datatype Head = Head(state: ChainState, maxGas: nat, reinject: seq<Submission>)

  method CountTxs(lists: map<Address, Items>) returns (count: nat)
    ensures count == Total(lists)
  {
    count := 0;
    var todo := lists.Keys;
    while todo != {}
      invariant todo <= lists.Keys
      invariant count + SumLens(todo, lists) == Total(lists)
      decreases todo
    {
      var a :| a in todo;
      SumLensRemove(todo, lists, a);
      count := count + |lists[a]|;
      todo := todo - {a};
    }
  }

  ghost function RoleOf(a: Address, locals: set<Address>, spammers: map<Address, nat>, offenders: seq<Address>): Role {
    if a in locals then Untouchable
    else if a in offenders then Offender
    else if a in spammers then Waiting(spammers[a])
    else Small
  }
}
