/** Runs of the pool with its price heaps in which it falls short of what its comments promise. */
module PoolCases {
  import opened Transactions
  import opened Lists
  import opened Accounts
  import opened Arrivals
  import opened PricedList
  import opened Pool
  import opened Admission

  const GAS := 2_000_000
  const FUNDS := 8_000_000
  const CHECKS := Checks(true, true, true)
  const SMALL := Config(10, 2, 2, 2, 2)

  /** Nobody has sent anything yet. */
  const START := ChainState((a: Address) => 0, (a: Address) => FUNDS)
  const OUTSET := Limits(0, FUNDS, FUNDS)

  ghost predicate Sendable(tx: Tx) {
    OUTSET.Covers(tx) && 1 <= tx.tipCap <= tx.feeCap < 10
  }

  /** A transaction with a gas price that takes so many slots. */
  method Make(price: nat, sender: Address, nonce: nat, slots: nat) returns (tx: Tx)
    requires 1 <= price <= 3
    ensures Sendable(tx) && tx.sender == sender && tx.nonce == nonce && NumSlots(tx) == slots
    ensures tx.feeCap == tx.tipCap == price
  {
    tx := Tx(sender, nonce, GAS, GAS * price, price, price, slots * TX_SLOT_SIZE, 0);
  }

  /** The pool at its start holds these remote transactions, and the urgent heap these entries. */
  ghost predicate Holding(pool: TxPool, priced: TxPricedList, txs: set<Tx>, listed: multiset<Tx>)
    reads pool, pool.all, pool.pendingNonces, priced
  {
    && Kept(pool, priced) && pool.all.Txs() == txs && pool.all.locals == {}
    && pool.state == START && pool.maxGas == FUNDS && pool.gasPrice == 1 && pool.locals == {}
    && priced.baseFee == None && priced.floating == [] && multiset(priced.urgent) == listed
  }

  /** A transaction is taken in where there is room and it has no rivals. */
  lemma TakenIn(a: Address, v: View, rules: Rules, txs: set<Tx>, s: Submission)
    requires rules == Rules(rules.config, START, FUNDS, 1, {}, false) && Sendable(s.tx) && s.checks == CHECKS
    requires SumSlots(txs) + NumSlots(s.tx) <= rules.config.Capacity() && Rivals(txs, s.tx) == {}
    ensures rules.Answer(txs, s) == Added(false) && rules.TxsAfter(txs, s) == txs + {s.tx}
    ensures rules.ViewAfter(a, v, txs, s) == if a == s.tx.sender then Received(v, s.tx) else v
  {
    assert s.tx in txs ==> s.tx in Rivals(txs, s.tx);
    assert rules.Evictions(txs, s) == [] && rules.Remaining(txs, s) == txs;
  }

  method Offer(pool: TxPool, priced: TxPricedList, tx: Tx, ghost txs: set<Tx>, ghost listed: multiset<Tx>)
    requires Holding(pool, priced, txs, listed) && Sendable(tx)
    requires SumSlots(txs) + NumSlots(tx) <= pool.config.Capacity() && Rivals(txs, tx) == {}
    modifies pool`pending, pool`queue, pool`locals, pool.all, pool.pendingNonces, priced
    ensures Holding(pool, priced, txs + {tx}, listed + multiset{tx}) && priced.stales == old(priced.stales)
    ensures SumSlots(txs + {tx}) == SumSlots(txs) + NumSlots(tx)
    ensures forall a {:trigger Sender(a)} :: Sender(a) ==>
      pool.V(a) == if a == tx.sender then Received(old(pool.V(a)), tx) else old(pool.V(a))
  {
    ghost var rules := pool.RulesFor(false);
    var r;
    ghost var s;
    r, s := Add(pool, priced, tx, CHECKS, false);
    forall a ensures pool.V(a) == if a == tx.sender then Received(old(pool.V(a)), tx) else old(pool.V(a)) {
      assert Sender(a);
      TakenIn(a, old(pool.V(a)), rules, txs, s);
    }
    TakenIn(0, old(pool.V(0)), rules, txs, s);
    OneMore(txs, tx);
    JustJoined(rules, txs, s, old(StockOf(priced)), StockOf(priced));
  }

  /** Where there is room the heaps get the newcomer and nothing else changes. */
  lemma JustJoined(rules: Rules, txs: set<Tx>, s: Submission, stock: Stock, next: Stock)
    requires Restocked(rules, txs, s, stock, next) && !rules.Overfills(SumSlots(txs), s.tx)
    requires rules.Answer(txs, s).Added?
    ensures Joined(stock.listed, next.listed, s.tx, rules.IsLocal(s.tx.sender)) && next.baseFee == stock.baseFee
  {
  }

  lemma OneMore(txs: set<Tx>, tx: Tx)
    requires Rivals(txs, tx) == {}
    ensures SumSlots(txs + {tx}) == SumSlots(txs) + NumSlots(tx)
  {
    assert tx in txs ==> tx in Rivals(txs, tx);
    SumSlotsRemove(txs + {tx}, tx);
    assert txs + {tx} - {tx} == txs;
  }

  method NewPool(config: Config) returns (pool: TxPool, priced: TxPricedList)
    ensures fresh(pool) && fresh(pool.all) && fresh(pool.pendingNonces) && fresh(priced)
    ensures Holding(pool, priced, {}, multiset{}) && pool.config == config && priced.stales == 0
    ensures forall a {:trigger Sender(a)} :: Sender(a) ==> pool.V(a) == View(map[], map[], 0)
  {
    pool := new TxPool(config, {}, START, FUNDS, 1);
    priced := new TxPricedList(pool.all);
  }

  /** A background run for sender 0 in a pool that is nowhere near its limits. */
  method PromoteFirst(pool: TxPool, priced: TxPricedList, ghost txs: set<Tx>, ghost listed: multiset<Tx>)
    requires Holding(pool, priced, txs, listed) && pool.Roomy(txs) && Fits(pool.V(0).queued, pool.QueueLimit(0))
    modifies pool, pool.all, pool.pendingNonces, priced
    ensures Holding(pool, priced, pool.all.Txs(), listed) && pool.all.Txs() <= txs
    ensures pool.V(0) == AfterRun(old(pool.V(0)), OUTSET, Promote)
    ensures pool.pendingNonces == old(pool.pendingNonces) || fresh(pool.pendingNonces)
  {
    assert Sender(0);
    ghost var outcome, stocks, level, cut := RunBackground(pool, priced, None, {0}, (a: Address) => 0);
  }

  /** A background run for a new head. */
  method Switch(pool: TxPool, priced: TxPricedList, news: NewHead)
      returns (ghost head: Head, ghost stocks: seq<Stock>)
    requires Kept(pool, priced)
    modifies pool, pool.all, pool.pendingNonces, priced
    ensures Kept(pool, priced) && pool.state == news.state && pool.maxGas == news.maxGas
    ensures head == Head(news.state, news.maxGas, head.reinject) && Offers(head.reinject, news.arrivals)
    ensures Consulted(old(pool.RulesAt(head)), old(pool.all.Txs()), head.reinject, stocks)
    ensures stocks[0] == old(StockOf(priced)) && pool.RulesAt(head) == old(pool.RulesAt(head))
    ensures old(pool.Uncrowded(Some(Switched(head)), 0)) ==>
      pool.V(0) == AfterRun(old(pool.ReadyView(Some(Switched(head)), 0)), pool.E(0), Overhaul)
  {
    assert Sender(0);
    ghost var outcome, level, cut;
    outcome, stocks, level, cut := RunBackground(pool, priced, Some(Some(news)), {0}, (a: Address) => 0);
    head := outcome.value.head;
  }

  /** All transactions of a new sender are promoted if there is no gap. */
  lemma AllPromoted(queued: Items, e: Limits, top: nat)
    requires forall n :: n in queued <==> e.nonce <= n <= top
    requires forall n :: n in queued ==> e.Covers(queued[n])
    requires e.nonce <= top
    ensures AfterRun(View(map[], queued, e.nonce), e, Promote) == View(queued, map[], top + 1)
  {
    var v := View(map[], queued, e.nonce);
    assert Usable(v, e) == queued;
    assert e.nonce in queued && top in queued;
    assert Lowest(queued) == e.nonce && Highest(queued) == top;
    assert ReadyRun(queued, e.nonce) == queued;
    assert Without(queued, queued) == map[] && map[] + queued == queued;
  }

  /** Two transactions of sender 0, the second of one slot. */
  ghost predicate InARow(first: Tx, second: Tx) {
    && Sendable(first) && Sendable(second) && first.sender == second.sender == 0
    && first.nonce == 0 && second.nonce == 1 && NumSlots(first) <= 3 && NumSlots(second) == 1
  }

  lemma OneSlot(tx: Tx)
    ensures SumSlots({}) == 0 && SumSlots({tx}) == NumSlots(tx)
  {
  }

  /** The second transaction of a sender has a place beside the first. */
  lemma RoomForSecond(first: Tx, second: Tx)
    requires InARow(first, second)
    ensures SumSlots({first}) + NumSlots(second) <= SMALL.Capacity() && Rivals({first}, second) == {}
    ensures {first} + {second} == {first, second} && |{first, second}| == 2
    ensures multiset{first} + multiset{second} == multiset{first, second}
  {
    OneSlot(first);
  }

  /** A new pool with one transaction of sender 0 queued. */
  method One(first: Tx) returns (pool: TxPool, priced: TxPricedList)
    requires Sendable(first) && first.sender == first.nonce == 0 && NumSlots(first) <= 3
    ensures fresh(pool) && fresh(pool.all) && fresh(pool.pendingNonces) && fresh(priced)
    ensures Holding(pool, priced, {first}, multiset{first}) && pool.config == SMALL
    ensures pool.V(0) == View(map[], map[0 := first], 0)
  {
    pool, priced := NewPool(SMALL);
    OneSlot(first);
    assert Sender(0);
    Offer(pool, priced, first, {}, multiset{});
    assert {} + {first} == {first} && multiset{} + multiset{first} == multiset{first};
  }

  /** Offers the second transaction of sender 0 to a pool that has the first. */
  method OfferSecond(pool: TxPool, priced: TxPricedList, first: Tx, second: Tx)
    requires InARow(first, second) && Holding(pool, priced, {first}, multiset{first}) && pool.config == SMALL
    modifies pool`pending, pool`queue, pool`locals, pool.all, pool.pendingNonces, priced
    ensures Holding(pool, priced, {first, second}, multiset{first, second})
    ensures pool.V(0) == Received(old(pool.V(0)), second)
  {
    RoomForSecond(first, second);
    Offer(pool, priced, second, {first}, multiset{first});
    assert Sender(0);
  }

  // ------------------------------------------------- a transaction left in the queue

  /** A head with a transaction of sender 1. */
  const AWAY := ChainState((a: Address) => if a == 1 then 1 else 0, (a: Address) => FUNDS)

  lemma OnePromoted(first: Tx)
    requires Sendable(first)
    ensures AfterRun(View(map[], map[0 := first], 0), OUTSET, Promote) == View(map[0 := first], map[], 1)
    ensures |map[0 := first]| == 1
  {
    AllPromoted(map[0 := first], OUTSET, 0);
  }

  lemma StillThere(v: View, all: set<Tx>, txs: set<Tx>)
    requires Listed(v, 0, all) && all <= txs && forall tx :: tx in txs ==> tx.sender == 0 && Holds(v, tx)
    ensures all == txs
  {
  }

  /** A new pool with a transaction of sender 0 pending. */
  method OnePending(first: Tx) returns (pool: TxPool, priced: TxPricedList)
    requires Sendable(first) && first.sender == first.nonce == 0 && NumSlots(first) <= 3
    ensures fresh(pool) && fresh(pool.all) && fresh(pool.pendingNonces) && fresh(priced)
    ensures Holding(pool, priced, {first}, multiset{first}) && pool.config == SMALL
    ensures pool.V(0) == View(map[0 := first], map[], 1)
  {
    pool, priced := One(first);
    OnePromoted(first);
    PromoteFirst(pool, priced, {first}, multiset{first});
    assert Sender(0);
    StillThere(pool.V(0), pool.all.Txs(), {first});
  }

  /** What is queued above the virtual nonce and can be paid for is not promoted. */
  lemma StaysQueued(v: View, e: Limits)
    requires forall n :: n in v.queued ==> v.nonce < n && e.nonce <= n && e.Covers(v.queued[n])
    ensures Promoted(v, e) == v
  {
    assert Usable(v, e) == v.queued;
    assert ReadyRun(v.queued, v.nonce) == map[];
    assert Without(v.queued, map[]) == v.queued && v.pending + map[] == v.pending;
  }

  /** What is pending from the chain nonce on and can be paid for is not demoted. */
  lemma StaysPending(v: View, e: Limits)
    requires forall n :: n in v.pending ==> e.nonce <= n && e.Covers(v.pending[n])
    requires v.pending != map[] ==> e.nonce in v.pending
    ensures Accounts.Demoted(v, e) == v
  {
    assert From(v.pending, e.nonce) == v.pending && KeepPayable(v.pending, e.balance, e.maxGas) == v.pending;
    assert PayablePrefix(v.pending, e.balance, e.maxGas) == v.pending && Without(v.pending, v.pending) == map[];
    assert v.queued + map[] == v.queued;
  }

  /** Promotion starts at the chain nonce, finds it pending and leaves the rest queued. */
  lemma StaysBehind(first: Tx, second: Tx)
    requires InARow(first, second)
    ensures
      var v := View(map[0 := first], map[1 := second], 1);
      AfterRun(v.(nonce := 0), OUTSET, Overhaul) == v && |v.queued| == 1
  {
    var v := View(map[0 := first], map[1 := second], 0);
    StaysQueued(v, OUTSET);
    StaysPending(v, OUTSET);
    assert 0 in v.pending && Highest(v.pending) == 0;
  }

  lemma NothingPutBack(pool: TxPool, head: Head)
    requires pool.Roomy(pool.all.Txs()) && Fits(pool.V(0).queued, pool.QueueLimit(0)) && head.reinject == []
    ensures pool.ReadyView(Some(Switched(head)), 0) == pool.V(0).(nonce := head.state.nonce(0))
    ensures pool.Uncrowded(Some(Switched(head)), 0)
  {
  }

  /** A run for a new head at which nothing is put back. */
  method SwitchOnly(pool: TxPool, priced: TxPricedList, state: ChainState)
    requires Kept(pool, priced) && pool.Roomy(pool.all.Txs()) && Fits(pool.V(0).queued, pool.QueueLimit(0))
    modifies pool, pool.all, pool.pendingNonces, priced
    ensures Kept(pool, priced) && pool.state == state && pool.maxGas == FUNDS
    ensures pool.V(0) == AfterRun(old(pool.V(0)).(nonce := state.nonce(0)), pool.E(0), Overhaul)
  {
    NothingPutBack(pool, Head(state, FUNDS, []));
    ghost var head, stocks := Switch(pool, priced, NewHead(state, FUNDS, []));
    assert head == Head(state, FUNDS, []);
  }

  /** A run for a new head at which nothing changes for sender 0. */
  method Strand(pool: TxPool, priced: TxPricedList, first: Tx, second: Tx)
    requires InARow(first, second) && Holding(pool, priced, {first, second}, multiset{first, second})
    requires pool.config == SMALL && pool.V(0) == View(map[0 := first], map[1 := second], 1)
    modifies pool, pool.all, pool.pendingNonces, priced
    ensures Kept(pool, priced) && pool.state == AWAY && pool.E(0) == OUTSET && pool.V(0) == old(pool.V(0))
    ensures pool.V(0) == AfterRun(old(pool.V(0)).(nonce := 0), pool.E(0), Overhaul)
  {
    RoomForSecond(first, second);
    StaysBehind(first, second);
    SwitchOnly(pool, priced, AWAY);
  }

  lemma Behind(v: View, tx: Tx)
    requires tx.nonce !in v.pending && v.queued == map[]
    ensures Received(v, tx) == View(v.pending, map[tx.nonce := tx], v.nonce)
  {
  }

  lemma LeftBehind(first: Tx, second: Tx)
    requires InARow(first, second)
    ensures
      var v := View(map[0 := first], map[1 := second], 1);
      && v.pending.Keys == {0} && v.queued.Keys == {1} && OUTSET.Covers(v.queued[1])
      && Settled(v, OUTSET) && Floored(v, OUTSET) && !Idle(v, OUTSET)
  {
  }

  /** A new pool with a transaction of sender 0 pending and the next one queued. */
  method OneOfTwoPending(first: Tx, second: Tx) returns (pool: TxPool, priced: TxPricedList)
    requires InARow(first, second)
    ensures fresh(pool) && fresh(pool.all) && fresh(pool.pendingNonces) && fresh(priced)
    ensures Holding(pool, priced, {first, second}, multiset{first, second}) && pool.config == SMALL
    ensures pool.V(0) == View(map[0 := first], map[1 := second], 1)
  {
    pool, priced := OnePending(first);
    Behind(View(map[0 := first], map[], 1), second);
    OfferSecond(pool, priced, first, second);
  }

  /** A sender's first transaction is pending and the second one just queued when the head
      changes: the second one stays queued, though it can be paid for and comes next. */
  method Stranded() returns (pool: TxPool, priced: TxPricedList, ghost before: View, ghost from: ChainState)
    ensures fresh(pool) && Kept(pool, priced) && from.nonce(1) < pool.state.nonce(1)
    ensures from.nonce(0) == pool.E(0).nonce == 0 && pool.V(0) == AfterRun(before.(nonce := 0), pool.E(0), Overhaul)
    ensures pool.V(0) == before && before.pending.Keys == {0} && before.queued.Keys == {1} && before.nonce == 1
    ensures pool.E(0).Covers(before.queued[1])
    ensures Settled(pool.V(0), pool.E(0)) && Floored(pool.V(0), pool.E(0)) && !Idle(pool.V(0), pool.E(0))
  {
    var first := Make(1, 0, 0, 1);
    var second := Make(1, 0, 1, 1);
    LeftBehind(first, second);
    pool, priced := OneOfTwoPending(first, second);
    before, from := pool.V(0), pool.state;
    Strand(pool, priced, first, second);
  }

  // ------------------------------------------------------- a sunken virtual nonce

  /** A head with the first transaction of sender 0. */
  const NEXT := ChainState((a: Address) => if a == 0 then 1 else 0, (a: Address) => FUNDS)

  lemma TwoPromoted(first: Tx, second: Tx)
    requires InARow(first, second)
    ensures AfterRun(View(map[], map[0 := first, 1 := second], 0), OUTSET, Promote)
      == View(map[0 := first, 1 := second], map[], 2)
    ensures |map[0 := first, 1 := second]| == 2
  {
    AllPromoted(map[0 := first, 1 := second], OUTSET, 1);
  }

  /** A new pool with two transactions of sender 0 queued. */
  method Two(first: Tx, second: Tx) returns (pool: TxPool, priced: TxPricedList)
    requires InARow(first, second)
    ensures fresh(pool) && fresh(pool.all) && fresh(pool.pendingNonces) && fresh(priced)
    ensures Holding(pool, priced, {first, second}, multiset{first, second}) && pool.config == SMALL
    ensures pool.V(0) == View(map[], map[0 := first, 1 := second], 0)
  {
    pool, priced := One(first);
    OfferSecond(pool, priced, first, second);
  }

  /** A new pool with two transactions of sender 0 pending. */
  method TwoPending(first: Tx, second: Tx) returns (pool: TxPool, priced: TxPricedList)
    requires InARow(first, second)
    ensures fresh(pool) && fresh(pool.all) && fresh(pool.pendingNonces) && fresh(priced)
    ensures Holding(pool, priced, {first, second}, multiset{first, second}) && pool.config == SMALL
    ensures pool.V(0) == View(map[0 := first, 1 := second], map[], 2)
  {
    pool, priced := Two(first, second);
    PromoteBoth(pool, priced, first, second);
  }

  method PromoteBoth(pool: TxPool, priced: TxPricedList, first: Tx, second: Tx)
    requires InARow(first, second) && Holding(pool, priced, {first, second}, multiset{first, second})
    requires pool.config == SMALL && pool.V(0) == View(map[], map[0 := first, 1 := second], 0)
    modifies pool, pool.all, pool.pendingNonces, priced
    ensures Holding(pool, priced, {first, second}, multiset{first, second})
    ensures pool.V(0) == View(map[0 := first, 1 := second], map[], 2)
    ensures pool.pendingNonces == old(pool.pendingNonces) || fresh(pool.pendingNonces)
  {
    RoomForSecond(first, second);
    TwoPromoted(first, second);
    PromoteFirst(pool, priced, {first, second}, multiset{first, second});
    assert Sender(0);
    TwoStillThere(first, second, pool.all.Txs());
  }

  lemma TwoStillThere(first: Tx, second: Tx, all: set<Tx>)
    requires InARow(first, second) && Listed(View(map[0 := first, 1 := second], map[], 2), 0, all)
    requires all <= {first, second}
    ensures all == {first, second}
  {
  }

  /** Three transactions of which the first two fill the pool, and the third is dearer than the
      first and no dearer than the second. */
  ghost predicate Rivalling(first: Tx, second: Tx, third: Tx) {
    && InARow(first, second) && Sendable(third) && third.sender == 1 && third.nonce == 0
    && NumSlots(first) == 3 && NumSlots(third) == 1 && first.feeCap < second.feeCap == third.feeCap
  }

  /** What the heaps of such a pool go by. */
  ghost predicate Stocked(stock: Stock, listed: seq<Tx>) {
    && stock.listed.floating == [] && multiset(stock.listed.urgent) == multiset(listed)
    && stock.baseFee == None && forall t :: t in listed ==> t in stock.remotes
  }

  /** All that is listed can be dropped. */
  lemma AllLive(stock: Stock, listed: seq<Tx>)
    requires Stocked(stock, listed)
    ensures SlotsOf(Live(stock.listed, stock.remotes)) == SlotsOf(listed)
    ensures forall t :: t in stock.listed.urgent <==> t in listed
    ensures forall t :: stock.listed.Count(t) == multiset(listed)[t]
  {
    var live := Live(stock.listed, stock.remotes);
    forall t ensures multiset(live)[t] == multiset(listed)[t] {
      LiveCount(stock.listed, stock.remotes, t);
      assert t in listed <==> t in multiset(listed);
    }
    assert multiset(live) == multiset(listed);
    SlotsOfSame(live, listed);
    SameElements(stock.listed.urgent, listed);
  }

  /** Of the heaps with the first two the third takes the place of the first. */
  lemma FirstGoes(stock: Stock, room: Room, first: Tx, second: Tx, third: Tx)
    requires Rivalling(first, second, third) && Stocked(stock, [first, second]) && stock.remotes == {first, second}
    requires HeapsAnswer(stock, room, third, 1, false)
    ensures room == Room(false, [first], true)
  {
    AllLive(stock, [first, second]);
    SlotsOfTwo(first, second);
    assert first in stock.listed.urgent && Cheaper(first, third, None);
    assert room.success;
    FewDropped(room.drop, 1);
    assert Before(None)(first, second) && room.drop[0] in room.drop;
    assert room.drop[0] != first ==> StaysListed(stock, room.drop, first);
  }

  lemma SlotsOfTwo(a: Tx, b: Tx)
    ensures SlotsOf([a, b]) == NumSlots(a) + NumSlots(b)
  {
    assert [a, b][..1] == [a];
    assert SlotsOf([a]) == NumSlots(a);
  }

  lemma {:induction false} SlotsAtLeast(txs: seq<Tx>)
    requires forall t :: t in txs ==> NumSlots(t) >= 1
    ensures SlotsOf(txs) >= |txs|
  {
    if txs != [] {
      SlotsAtLeast(txs[..|txs| - 1]);
    }
  }

  /** No more are dropped than needed. */
  lemma FewDropped(drop: seq<Tx>, needed: nat)
    requires forall t :: t in drop ==> NumSlots(t) >= 1
    requires drop != [] ==> SlotsOf(drop[..|drop| - 1]) < needed
    ensures |drop| <= needed
  {
    if drop != [] {
      var init := drop[..|drop| - 1];
      assert forall t :: t in init ==> t in drop;
      SlotsAtLeast(init);
    }
  }

  lemma BothFill(first: Tx, second: Tx)
    requires first != second
    ensures SumSlots({first, second}) == NumSlots(first) + NumSlots(second)
  {
    OneSlot(first);
    OneSlot(second);
    SumSlotsUnion({first}, {second});
    assert {first} + {second} == {first, second};
  }

  /** What the third finds when it is put back at the new head. */
  ghost predicate PutBackThird(rules: Rules, batch: seq<Submission>, stocks: seq<Stock>, first: Tx, second: Tx,
                               third: Tx) {
    && rules == Rules(SMALL, NEXT, FUNDS, 1, {}, false) && Offers(batch, [Arrival(third, CHECKS)])
    && Consulted(rules, {first, second}, batch, stocks)
    && Stocked(stocks[0], [first, second]) && stocks[0].remotes == {first, second}
  }

  lemma ThirdComes(rules: Rules, batch: seq<Submission>, stocks: seq<Stock>, first: Tx, second: Tx, third: Tx)
    requires Rivalling(first, second, third) && PutBackThird(rules, batch, stocks, first, second, third)
    ensures batch == [Submission(third, CHECKS, Room(false, [first], true))]
  {
    var s := batch[0];
    OnlyTurn(rules, {first, second}, s, batch, stocks);
    BothFill(first, second);
    FirstGoes(stocks[0], s.room, first, second, third);
  }

  lemma OnlyTurn(rules: Rules, txs: set<Tx>, s: Submission, batch: seq<Submission>, stocks: seq<Stock>)
    requires batch == [s] && Consulted(rules, txs, batch, stocks)
    ensures Asked(rules, txs, s, stocks[0])
  {
    assert batch[..0] == [];
  }

  lemma SinksSecond(rules: Rules, first: Tx, second: Tx, third: Tx)
    requires Rivalling(first, second, third) && rules == Rules(SMALL, NEXT, FUNDS, 1, {}, false)
    ensures
      var batch := [Submission(third, CHECKS, Room(false, [first], true))];
      && TxsAfterAll(rules, {first, second}, batch) <= {second, third}
      && ViewAfterAll(0, View(map[0 := first, 1 := second], map[], 1), rules, {first, second}, batch)
            == View(map[], map[1 := second], 0)
  {
    var s := Submission(third, CHECKS, Room(false, [first], true));
    assert [s][..0] == [];
    BothFill(first, second);
    assert rules.Evictions({first, second}, s) == [first];
    var v := View(map[0 := first, 1 := second], map[], 1);
    assert [first][..0] == [] && LostAll(v, [first]) == Dropped(v, first);
    assert Below(v.pending, 0) == map[] && map[] + From(v.pending, 1) == map[1 := second];
  }

  /** Queued transactions above a virtual nonce below the chain nonce are not promoted. */
  lemma StaysSunken(second: Tx)
    requires Sendable(second) && second.nonce == 1
    ensures
      var w, e := View(map[], map[1 := second], 0), Limits(1, FUNDS, FUNDS);
      && AfterRun(w, e, Overhaul) == w && |w.queued| == 1
      && Settled(w, e) && !Floored(w, e) && e.Covers(w.queued[1])
  {
    var w, e := View(map[], map[1 := second], 0), Limits(1, FUNDS, FUNDS);
    StaysQueued(w, e);
    StaysPending(w, e);
  }

  /** The head with the first transaction, where the third takes the place of this. */
  function Meeting(first: Tx, third: Tx): Head {
    Head(NEXT, FUNDS, [Submission(third, CHECKS, Room(false, [first], true))])
  }

  lemma ReadyAway(pool: TxPool, first: Tx, second: Tx, third: Tx)
    requires Rivalling(first, second, third) && pool.locals == {} && pool.gasPrice == 1
    requires pool.config == SMALL && pool.all.Txs() == {first, second}
    requires pool.V(0) == View(map[0 := first, 1 := second], map[], 2)
    ensures pool.ReadyView(Some(Switched(Meeting(first, third))), 0) == View(map[], map[1 := second], 0)
    ensures pool.Uncrowded(Some(Switched(Meeting(first, third))), 0)
  {
    SinksSecond(pool.RulesAt(Meeting(first, third)), first, second, third);
    SubsetSize(pool.ReadyTxs(Some(Switched(Meeting(first, third)))), {second, third});
    StaysSunken(second);
  }

  /** A new head comes with the first transaction, and the third is put back. */
  method Sink(pool: TxPool, priced: TxPricedList, first: Tx, second: Tx, third: Tx)
      returns (ghost head: Head, ghost stocks: seq<Stock>)
    requires Rivalling(first, second, third) && Holding(pool, priced, {first, second}, multiset{first, second})
    requires pool.config == SMALL && pool.V(0) == View(map[0 := first, 1 := second], map[], 2)
    modifies pool, pool.all, pool.pendingNonces, priced
    ensures Kept(pool, priced) && pool.state == NEXT && pool.E(0) == Limits(1, FUNDS, FUNDS)
    ensures pool.V(0) == View(map[], map[1 := second], 0) && head == Meeting(first, third)
    ensures Consulted(pool.RulesAt(head), {first, second}, head.reinject, stocks)
    ensures stocks[0].remotes == {first, second}
  {
    ReadyAway(pool, first, second, third);
    StaysSunken(second);
    head, stocks := SwitchForThird(pool, priced, first, second, third);
  }

  /** At the new head the third comes and the first has to go. */
  method SwitchForThird(pool: TxPool, priced: TxPricedList, first: Tx, second: Tx, third: Tx)
      returns (ghost head: Head, ghost stocks: seq<Stock>)
    requires Rivalling(first, second, third) && Holding(pool, priced, {first, second}, multiset{first, second})
    requires pool.config == SMALL
    modifies pool, pool.all, pool.pendingNonces, priced
    ensures Kept(pool, priced) && pool.state == NEXT && pool.maxGas == FUNDS && head == Meeting(first, third)
    ensures Consulted(pool.RulesAt(head), {first, second}, head.reinject, stocks)
    ensures stocks[0].remotes == {first, second}
    ensures old(pool.Uncrowded(Some(Switched(head)), 0)) ==>
      pool.V(0) == AfterRun(old(pool.ReadyView(Some(Switched(head)), 0)), pool.E(0), Overhaul)
  {
    assert Stocked(StockOf(priced), [first, second]);
    head, stocks := Switch(pool, priced, NewHead(NEXT, FUNDS, [Arrival(third, CHECKS)]));
    ThirdComes(pool.RulesAt(head), head.reinject, stocks, first, second, third);
  }

  /** A sender has two pending transactions when a new head comes with the first of them. This
      one is the cheapest and is dropped to make room before it is found to be used up: the
      virtual nonce ends below the chain nonce, and the second transaction, though it can be
      paid for and comes next, in the queue. */
  method Sunk()
      returns (pool: TxPool, priced: TxPricedList, ghost before: View, ghost head: Head, ghost stocks: seq<Stock>)
    ensures fresh(pool) && Kept(pool, priced) && pool.state == head.state && |head.reinject| == 1
    ensures before.pending.Keys == {0, 1} && Settled(before, OUTSET) && Floored(before, OUTSET)
    ensures Consulted(pool.RulesAt(head), before.pending.Values, head.reinject, stocks)
    ensures stocks[0].remotes == before.pending.Values
    ensures head.reinject[0].tx.sender == 1 && head.reinject[0].room.drop == [before.pending[0]]
    ensures pool.V(0) == View(map[], map[1 := before.pending[1]], 0)
    ensures Settled(pool.V(0), pool.E(0)) && !Floored(pool.V(0), pool.E(0))
    ensures pool.E(0).nonce == 1 && pool.E(0).Covers(before.pending[1])
  {
    var first := Make(1, 0, 0, 3);
    var second := Make(2, 0, 1, 1);
    var third := Make(2, 1, 0, 1);
    pool, priced := TwoPending(first, second);
    before := pool.V(0);
    TwoSettled(first, second);
    StaysSunken(second);
    head, stocks := Sink(pool, priced, first, second, third);
  }

  lemma TwoSettled(first: Tx, second: Tx)
    requires InARow(first, second)
    ensures
      var v := View(map[0 := first, 1 := second], map[], 2);
      && v.pending.Keys == {0, 1} && v.pending.Values == {first, second}
      && Settled(v, OUTSET) && Floored(v, OUTSET)
  {
    var m: Items := map[0 := first, 1 := second];
    assert m[0] == first && m[1] == second;
  }

  // ---------------------------------------------------- the order of dropped queues

  /** Only two senders have something queued. */
  lemma TotalOfTwo(lists: map<Address, Items>, a: Address, b: Address)
    requires a != b && lists.Keys <= {a, b}
    ensures Total(lists) == |ItemsOf(lists, a)| + |ItemsOf(lists, b)|
  {
    TotalOver({a, b}, lists);
    SumLensRemove({a, b}, lists, a);
    assert {a, b} - {a} == {b};
    SumLensOne(lists, b);
  }

  lemma SumLensOne(lists: map<Address, Items>, a: Address)
    ensures SumLens({a}, lists) == |ItemsOf(lists, a)|
  {
  }

  /** Nobody but senders 0 and 1 has something queued. */
  ghost predicate TwoQueue(pool: TxPool)
    reads pool, pool.pendingNonces
  {
    NoneEmpty(pool.queue) && forall a: Address :: a > 1 ==> pool.V(a).queued == map[]
  }

  lemma QueuedByTwo(pool: TxPool)
    requires TwoQueue(pool)
    ensures pool.queue.Keys <= {0, 1} && Total(pool.queue) == |pool.V(0).queued| + |pool.V(1).queued|
  {
    forall a: Address | a in pool.queue ensures a == 0 || a == 1 {
      assert a > 1 ==> pool.V(a).queued == map[];
    }
    TotalOfTwo(pool.queue, 0, 1);
  }

  /** A pool with one queued transaction of each of two senders, both out of turn. */
  method OneEach(older: Tx, newer: Tx) returns (pool: TxPool, priced: TxPricedList)
    requires Sendable(older) && Sendable(newer) && older.sender == 0 && newer.sender == 1
    requires older.nonce == newer.nonce == 1 && NumSlots(older) + NumSlots(newer) <= 3
    ensures fresh(pool) && fresh(pool.all) && fresh(pool.pendingNonces) && fresh(priced)
    ensures Kept(pool, priced) && pool.locals == {} && pool.config == Config(10, 2, 2, 2, 1) && TwoQueue(pool)
    ensures pool.V(0) == View(map[], map[1 := older], 0) && pool.V(1) == View(map[], map[1 := newer], 0)
  {
    pool, priced := NewPool(Config(10, 2, 2, 2, 1));
    OneSlot(older);
    assert {} + {older} == {older};
    Offer(pool, priced, older, {}, multiset{});
    Offer(pool, priced, newer, {older}, multiset{older});
    forall a: Address | a > 1 ensures pool.V(a).queued == map[] {
      assert Sender(a);
    }
    assert Sender(0) && Sender(1);
  }

  /** With one place for two, only the first can have it. */
  lemma OneOfTwo(pool: TxPool, older: Items)
    requires TwoQueue(pool) && Total(pool.queue) == 1 && |older| == 1 && Within(pool.V(0).queued, older)
    requires pool.V(0).queued != older ==> pool.V(1).queued == map[]
    ensures pool.V(0).queued == older && pool.V(1).queued == map[]
  {
    QueuedByTwo(pool);
    PartSize(pool.V(0).queued, older);
  }

  /** Drops what remote senders have queued too much; two of them have different beats. */
  method Shorten(pool: TxPool, beats: Address -> nat)
    requires pool.Consistent() && pool.locals == {} && pool.config.globalQueue < Total(pool.queue)
    requires beats(0) < beats(1)
    modifies pool`pending, pool`queue, pool.all, pool.pendingNonces
    ensures pool.Consistent() && Total(pool.queue) == pool.config.globalQueue
    ensures forall a {:trigger Sender(a)} :: Sender(a) ==> QueueCut(old(pool.V(a)), pool.V(a))
    ensures pool.V(0) != old(pool.V(0)) ==> pool.V(1).queued == map[]
  {
    pool.TruncateQueue(beats);
    TotalExact(pool.queue, pool.config.globalQueue);
    FirstKeeps(pool, old(pool.Snapshot()), beats);
  }

  lemma FirstKeeps(pool: TxPool, before: Address -> View, beats: Address -> nat)
    requires pool.LatestFirst(before, beats) && pool.locals == {} && beats(0) < beats(1)
    ensures pool.V(0) != before(0) ==> pool.V(1).queued == map[]
  {
    assert Sender(0) && Sender(1);
  }

  /** Cuts the queues of the two senders. */
  method ShortenTwo(pool: TxPool, beats: Address -> nat)
    requires pool.Consistent() && TwoQueue(pool) && pool.locals == {} && pool.config.globalQueue < Total(pool.queue)
    requires beats(0) < beats(1)
    modifies pool`pending, pool`queue, pool.all, pool.pendingNonces
    ensures pool.Consistent() && TwoQueue(pool) && Total(pool.queue) == pool.config.globalQueue
    ensures QueueCut(old(pool.V(0)), pool.V(0)) && QueueCut(old(pool.V(1)), pool.V(1))
    ensures pool.V(0) != old(pool.V(0)) ==> pool.V(1).queued == map[]
  {
    Shorten(pool, beats);
    forall a: Address | a > 1 ensures pool.V(a).queued == map[] {
      assert Sender(a);
    }
    assert Sender(0) && Sender(1);
  }

  lemma TotalExact(lists: map<Address, Items>, limit: nat)
    requires limit <= Total(lists) && (Total(lists) <= limit || forall a :: a !in lists)
    ensures Total(lists) == limit
  {
  }

  /** Cuts the queues of the two senders down to one place. */
  method KeepOne(pool: TxPool, beats: Address -> nat)
    requires pool.Consistent() && TwoQueue(pool) && pool.locals == {} && pool.config.globalQueue == 1
    requires beats(0) < beats(1) && |pool.V(0).queued| == |pool.V(1).queued| == 1
    modifies pool`pending, pool`queue, pool.all, pool.pendingNonces
    ensures pool.Consistent() && old(Total(pool.queue)) == 2 && Total(pool.queue) == 1
    ensures pool.V(0) == old(pool.V(0)) && pool.V(1) == old(pool.V(1)).(queued := map[])
  {
    QueuedByTwo(pool);
    ShortenTwo(pool, beats);
    OneOfTwo(pool, old(pool.V(0)).queued);
  }

  lemma NotOldestFirst(pool: TxPool, before: Address -> View, beats: Address -> nat)
    requires pool.locals == {} && beats(0) < beats(1) && pool.V(0).queued != map[] && pool.V(1) != before(1)
    ensures !pool.OldestFirst(before, beats)
  {
    assert Sender(0) && Sender(1);
  }

  method DropNewest(pool: TxPool, beats: Address -> nat, ghost before: Address -> View)
    requires pool.Consistent() && TwoQueue(pool) && pool.locals == {} && pool.config.globalQueue == 1
    requires beats(0) < beats(1) && |before(0).queued| == |before(1).queued| == 1
    requires pool.V(0) == before(0) && pool.V(1) == before(1)
    modifies pool`pending, pool`queue, pool.all, pool.pendingNonces
    ensures pool.Consistent() && !pool.OldestFirst(before, beats)
    ensures old(Total(pool.queue)) == 2 && Total(pool.queue) == 1
    ensures pool.V(0) == before(0) && pool.V(1) == before(1).(queued := map[])
  {
    KeepOne(pool, beats);
    NotOldestFirst(pool, before, beats);
  }

  /** Two senders have one queued transaction each, one more than the pool may queue. The one
      of the sender that was heard of last is dropped, and the older one kept. */
  method NewestDropped()
      returns (pool: TxPool, beats: Address -> nat, ghost before: Address -> View, ghost queued: nat)
    ensures fresh(pool) && pool.Consistent() && beats(0) < beats(1)
    ensures |before(0).queued| == 1 && |before(1).queued| == 1
    ensures queued == pool.config.globalQueue + 1 && Total(pool.queue) == pool.config.globalQueue
    ensures pool.V(0) == before(0) && pool.V(1) == before(1).(queued := map[])
    ensures !pool.OldestFirst(before, beats)
  {
    var older := Make(1, 0, 1, 1);
    var newer := Make(1, 1, 1, 1);
    beats := (a: Address) => a;
    var priced;
    pool, priced := OneEach(older, newer);
    before, queued := pool.Snapshot(), Total(pool.queue);
    DropNewest(pool, beats, before);
  }

  // ------------------------------------------------ a transaction dropped twice

  /** Nobody has anything pending. */
  ghost predicate NonePending(pool: TxPool)
    reads pool, pool.pendingNonces
  {
    forall a {:trigger Sender(a)} :: Sender(a) ==> pool.V(a).pending == map[]
  }

  /** Three transactions of one slot, and a cheaper one of sender 0, which has none of the three. */
  ghost predicate Crowd(t: Tx, rest: set<Tx>) {
    && Sendable(t) && t.sender == 0 && NumSlots(t) == 1 && |rest| == SumSlots(rest) == 3
    && forall x :: x in rest ==> x.sender > 0 && NumSlots(x) == 1 && t.feeCap < x.feeCap
  }

  method OfferQueued(pool: TxPool, priced: TxPricedList, tx: Tx, ghost txs: set<Tx>, ghost listed: multiset<Tx>)
    requires Holding(pool, priced, txs, listed) && Sendable(tx) && NonePending(pool)
    requires SumSlots(txs) + NumSlots(tx) <= pool.config.Capacity() && forall x :: x in txs ==> x.sender != tx.sender
    modifies pool`pending, pool`queue, pool`locals, pool.all, pool.pendingNonces, priced
    ensures Holding(pool, priced, txs + {tx}, listed + multiset{tx}) && priced.stales == old(priced.stales)
    ensures NonePending(pool) && SumSlots(txs + {tx}) == SumSlots(txs) + NumSlots(tx)
  {
    assert Rivals(txs, tx) == {};
    Offer(pool, priced, tx, txs, listed);
    forall x ensures pool.V(x).pending == map[] {
      assert Sender(x);
    }
  }

  /** A pool with three transactions of different senders. */
  method Three() returns (pool: TxPool, priced: TxPricedList, ghost rest: set<Tx>)
    ensures fresh(pool) && fresh(pool.all) && fresh(pool.pendingNonces) && fresh(priced)
    ensures Holding(pool, priced, rest, multiset(rest)) && pool.config == SMALL && priced.stales == 0
    ensures NonePending(pool) && |rest| == SumSlots(rest) == 3
    ensures forall x :: x in rest ==> x.sender > 0 && NumSlots(x) == 1 && x.feeCap == 2
  {
    pool, priced := NewPool(SMALL);
    rest := OfferThree(pool, priced);
  }

  method OfferThree(pool: TxPool, priced: TxPricedList) returns (ghost rest: set<Tx>)
    requires Holding(pool, priced, {}, multiset{}) && pool.config == SMALL && NonePending(pool)
    modifies pool`pending, pool`queue, pool`locals, pool.all, pool.pendingNonces, priced
    ensures Holding(pool, priced, rest, multiset(rest)) && priced.stales == old(priced.stales)
    ensures NonePending(pool) && |rest| == SumSlots(rest) == 3
    ensures forall x :: x in rest ==> x.sender > 0 && NumSlots(x) == 1 && x.feeCap == 2
  {
    rest := {};
    for i := 0 to 3
      invariant Holding(pool, priced, rest, multiset(rest)) && priced.stales == old(priced.stales)
      invariant NonePending(pool) && |rest| == SumSlots(rest) == i
      invariant forall x :: x in rest ==> 0 < x.sender <= i && NumSlots(x) == 1 && x.feeCap == 2
    {
      rest := OfferNext(pool, priced, i + 1, rest);
    }
  }

  method OfferNext(pool: TxPool, priced: TxPricedList, sender: Address, ghost rest: set<Tx>)
      returns (ghost more: set<Tx>)
    requires Holding(pool, priced, rest, multiset(rest)) && NonePending(pool)
    requires SumSlots(rest) < pool.config.Capacity() && forall x :: x in rest ==> x.sender < sender
    modifies pool`pending, pool`queue, pool`locals, pool.all, pool.pendingNonces, priced
    ensures Holding(pool, priced, more, multiset(more)) && NonePending(pool) && priced.stales == old(priced.stales)
    ensures |more| == |rest| + 1 && SumSlots(more) == SumSlots(rest) + 1
    ensures forall x :: x in more ==> x in rest || (x.sender == sender && NumSlots(x) == 1 && x.feeCap == 2)
  {
    var tx := Make(2, sender, 0, 1);
    OfferQueued(pool, priced, tx, rest, multiset(rest));
    more := rest + {tx};
    assert multiset(rest) + multiset{tx} == multiset(more);
  }

  /** The queue of sender 0 expires, and its entry turns stale. */
  method Expire(pool: TxPool, priced: TxPricedList, ghost txs: set<Tx>, ghost listed: multiset<Tx>)
    requires Holding(pool, priced, txs, listed) && |listed| == 4 && priced.stales == 0 && NonePending(pool)
    modifies pool`pending, pool`queue, pool.all, pool.pendingNonces, priced
    ensures Holding(pool, priced, OthersOf(txs), listed) && NonePending(pool)
  {
    Quieten(pool, priced, txs, listed);
    MarkStale(pool, priced, OthersOf(txs), listed);
  }

  /** One stale entry among four is left alone. */
  method MarkStale(pool: TxPool, priced: TxPricedList, ghost txs: set<Tx>, ghost listed: multiset<Tx>)
    requires Holding(pool, priced, txs, listed) && priced.stales == 0 && |listed| == 4
    modifies priced
    ensures Holding(pool, priced, txs, listed)
  {
    assert |priced.urgent| == |multiset(priced.urgent)|;
    priced.Removed(1);
  }

  method Quieten(pool: TxPool, priced: TxPricedList, ghost txs: set<Tx>, ghost listed: multiset<Tx>)
    requires NonePending(pool) && Holding(pool, priced, txs, listed)
    modifies pool`pending, pool`queue, pool.all, pool.pendingNonces
    ensures Holding(pool, priced, OthersOf(txs), listed) && NonePending(pool)
  {
    ghost var remotes := pool.all.remotes;
    EvictFirst(pool);
    TracksFewer(priced.Listed(), remotes, pool.all.remotes);
  }

  lemma RestOf(t: Tx, rest: set<Tx>)
    requires Crowd(t, rest)
    ensures OthersOf(rest + {t}) == rest && |multiset(rest)| == 3
    ensures SumSlots(rest) + NumSlots(t) <= SMALL.Capacity() && forall x :: x in rest ==> x.sender != t.sender
  {
  }

  /** The transactions of all but sender 0. */
  function OthersOf(txs: set<Tx>): set<Tx> {
    set x | x in txs && x.sender != 0
  }

  /** The queue of sender 0, who has nothing pending, expires. */
  method EvictFirst(pool: TxPool)
    requires pool.Consistent() && NonePending(pool) && pool.locals == {}
    modifies pool`pending, pool`queue, pool.all, pool.pendingNonces
    ensures pool.Consistent() && NonePending(pool) && pool.Shrinks(old(pool.all.locals), old(pool.all.remotes))
    ensures pool.all.Txs() == OthersOf(old(pool.all.Txs()))
  {
    pool.EvictExpired({0});
    forall x ensures x in pool.all.Txs() <==> x in OthersOf(old(pool.all.Txs())) {
      assert Sender(x.sender);
      SameOrGone(old(pool.V(x.sender)), pool.V(x.sender), x, old(pool.all.Txs()), pool.all.Txs());
    }
    forall x ensures pool.V(x).pending == map[] {
      assert Sender(x);
    }
  }

  lemma SameOrGone(v: View, w: View, x: Tx, was: set<Tx>, now: set<Tx>)
    requires Listed(v, x.sender, was) && Listed(w, x.sender, now) && v.pending == map[]
    requires w == if x.sender == 0 then v.(queued := map[]) else v
    ensures x in now <==> x in was && x.sender != 0
  {
  }

  /** What the heaps of the crowd go by once the cheapest is listed twice. */
  ghost predicate ListedTwice(stock: Stock, t: Tx, rest: set<Tx>) {
    && stock.listed.floating == [] && multiset(stock.listed.urgent) == multiset(rest) + multiset{t} + multiset{t}
    && stock.baseFee == None && stock.remotes == rest + {t}
  }

  lemma {:induction false} SlotsEach(txs: seq<Tx>)
    requires forall x :: x in txs ==> NumSlots(x) == 1
    ensures SlotsOf(txs) == |txs|
  {
    if txs != [] {
      SlotsEach(txs[..|txs| - 1]);
    }
  }

  /** All five entries can be dropped. */
  lemma FiveLive(stock: Stock, t: Tx, rest: set<Tx>)
    requires Crowd(t, rest) && ListedTwice(stock, t, rest)
    ensures SlotsOf(Live(stock.listed, stock.remotes)) == 5
    ensures t in stock.listed.urgent && stock.listed.Count(t) == 2
  {
    var live := Live(stock.listed, stock.remotes);
    forall x ensures multiset(live)[x] == multiset(stock.listed.urgent)[x] {
      LiveCount(stock.listed, stock.remotes, x);
    }
    assert multiset(live) == multiset(stock.listed.urgent);
    assert |live| == |multiset(live)| == 5;
    SlotsEach(live);
    assert t in multiset(stock.listed.urgent);
  }

  /** For a dearer transaction of two slots both entries of the cheapest are dropped. */
  lemma TwiceGone(stock: Stock, room: Room, t: Tx, rest: set<Tx>, w: Tx)
    requires Crowd(t, rest) && ListedTwice(stock, t, rest) && t.feeCap < w.feeCap
    requires HeapsAnswer(stock, room, w, 2, false)
    ensures room == Room(false, [t, t], true)
  {
    FiveLive(stock, t, rest);
    assert Cheaper(t, w, None);
    SlotsEach(room.drop);
    FewDropped(room.drop, 2);
    BothOfIt(stock, room.drop, t, rest);
  }

  lemma BothOfIt(stock: Stock, drop: seq<Tx>, t: Tx, rest: set<Tx>)
    requires Crowd(t, rest) && t in stock.remotes && stock.listed.Count(t) == 2 && stock.listed.floating == []
    requires stock.baseFee == None && |drop| == 2 && (forall x :: x in drop ==> x in rest + {t})
    requires DropsCheapest(stock, drop)
    ensures drop == [t, t]
  {
    var x, y := drop[0], drop[1];
    assert drop == [x, y] && x in drop && y in drop;
    assert x != t || y != t ==> StaysListed(stock, drop, t);
    assert x != t ==> Before(None)(t, x);
    assert y != t ==> Before(None)(t, y);
  }

  /** The cheapest is offered again after its queue expired, and gets a second entry. */
  method Returned(t: Tx) returns (pool: TxPool, priced: TxPricedList, ghost rest: set<Tx>)
    requires Sendable(t) && t.sender == 0 && NumSlots(t) == 1 && t.feeCap == 1
    ensures fresh(pool) && fresh(pool.all) && fresh(pool.pendingNonces) && fresh(priced)
    ensures Crowd(t, rest) && pool.config == SMALL && SumSlots(rest + {t}) == 4
    ensures Holding(pool, priced, rest + {t}, multiset(rest) + multiset{t} + multiset{t})
  {
    pool, priced, rest := Three();
    assert Crowd(t, rest);
    Return(pool, priced, t, rest);
  }

  /** The cheapest comes, leaves and comes again. */
  method Return(pool: TxPool, priced: TxPricedList, t: Tx, ghost rest: set<Tx>)
    requires Crowd(t, rest) && Holding(pool, priced, rest, multiset(rest)) && pool.config == SMALL
    requires priced.stales == 0 && NonePending(pool)
    modifies pool`pending, pool`queue, pool`locals, pool.all, pool.pendingNonces, priced
    ensures Holding(pool, priced, rest + {t}, multiset(rest) + multiset{t} + multiset{t})
    ensures SumSlots(rest + {t}) == 4
  {
    RestOf(t, rest);
    ComeAndGo(pool, priced, t, rest, multiset(rest));
    OfferQueued(pool, priced, t, rest, multiset(rest) + multiset{t});
  }

  /** A transaction of sender 0 comes and, with its queue, goes. */
  method ComeAndGo(pool: TxPool, priced: TxPricedList, t: Tx, ghost txs: set<Tx>, ghost listed: multiset<Tx>)
    requires Holding(pool, priced, txs, listed) && |listed| == 3 && priced.stales == 0 && NonePending(pool)
    requires Sendable(t) && t.sender == 0 && (forall x :: x in txs ==> x.sender != 0)
    requires SumSlots(txs) + NumSlots(t) <= pool.config.Capacity() && OthersOf(txs + {t}) == txs
    modifies pool`pending, pool`queue, pool`locals, pool.all, pool.pendingNonces, priced
    ensures Holding(pool, priced, txs, listed + multiset{t}) && NonePending(pool)
  {
    OfferQueued(pool, priced, t, txs, listed);
    Expire(pool, priced, txs + {t}, listed + multiset{t});
  }

  /** Nothing but the lack of room stands against a transaction that is new. */
  lemma Welcome(rules: Rules, txs: set<Tx>, s: Submission)
    requires rules == Rules(SMALL, START, FUNDS, 1, {}, false) && s.checks == CHECKS && Sendable(s.tx) && s.tx !in txs
    ensures Admissible(rules, s.tx in txs, SumSlots(txs), s.tx, s.checks)
  {
  }

  /** What becomes of a full pool for a dearer transaction of two slots. */
  lemma OneSlotOver(rules: Rules, stock: Stock, s: Submission, t: Tx, rest: set<Tx>)
    requires Crowd(t, rest) && ListedTwice(stock, t, rest) && SumSlots(rest + {t}) == 4
    requires rules == Rules(SMALL, START, FUNDS, 1, {}, false) && s.checks == CHECKS
    requires Sendable(s.tx) && s.tx.nonce == 1 && s.tx.sender == 0 && NumSlots(s.tx) == 2 && t.feeCap < s.tx.feeCap
    requires Asked(rules, rest + {t}, s, stock) && t.nonce == 0
    ensures s.room == Room(false, [t, t], true)
    ensures rules.Answer(rest + {t}, s) == Added(false) && SumSlots(rules.TxsAfter(rest + {t}, s)) == 5
  {
    assert s.tx != t && s.tx !in rest;
    Welcome(rules, rest + {t}, s);
    TwiceGone(stock, s.room, t, rest, s.tx);
    assert Rivals(rest, s.tx) == {};
    OneForTwo(rules, t, rest, s);
  }

  lemma OneForTwo(rules: Rules, t: Tx, rest: set<Tx>, s: Submission)
    requires s.room == Room(false, [t, t], true) && t !in rest && Rivals(rest, s.tx) == {}
    requires Admissible(rules, s.tx in rest + {t}, SumSlots(rest + {t}), s.tx, s.checks)
    requires rules.Overfills(SumSlots(rest + {t}), s.tx)
    ensures rules.Answer(rest + {t}, s) == Added(false)
    ensures SumSlots(rules.TxsAfter(rest + {t}, s)) == SumSlots(rest) + NumSlots(s.tx)
  {
    var txs := rest + {t};
    assert rules.Refusal(txs, s).None?;
    assert rules.Remaining(txs, s) == rest by {
      assert Elements([t, t]) == {t} && txs - {t} == rest;
    }
    OneMore(rest, s.tx);
    assert rules.TxsAfter(txs, s) == rest + {s.tx};
  }

  /** Offers a transaction of which only the answer and the table are of interest. */
  method Apply(pool: TxPool, priced: TxPricedList, w: Tx) returns (r: AddResult, ghost s: Submission)
    requires Kept(pool, priced)
    modifies pool`pending, pool`queue, pool`locals, pool.all, pool.pendingNonces, priced
    ensures Kept(pool, priced) && pool.locals == old(pool.locals) && s == Submission(w, CHECKS, s.room)
    ensures Asked(old(pool.RulesFor(false)), old(pool.all.Txs()), s, old(StockOf(priced)))
    ensures r == old(pool.RulesFor(false).Answer(pool.all.Txs(), s))
    ensures pool.all.slots == SumSlots(old(pool.RulesFor(false).TxsAfter(pool.all.Txs(), s)))
  {
    r, s := Add(pool, priced, w, CHECKS, false);
  }

  /** Offers a dearer transaction of two slots to the full pool. */
  method Overflow(pool: TxPool, priced: TxPricedList, w: Tx, ghost t: Tx, ghost rest: set<Tx>)
      returns (r: AddResult, ghost s: Submission)
    requires Crowd(t, rest) && t.nonce == 0 && pool.config == SMALL && SumSlots(rest + {t}) == 4
    requires Holding(pool, priced, rest + {t}, multiset(rest) + multiset{t} + multiset{t})
    requires Sendable(w) && w.nonce == 1 && w.sender == 0 && NumSlots(w) == 2 && t.feeCap < w.feeCap
    modifies pool`pending, pool`queue, pool`locals, pool.all, pool.pendingNonces, priced
    ensures Kept(pool, priced) && pool.locals == {} && pool.all.slots == 5
    ensures Asked(pool.RulesFor(false), rest + {t}, s, old(StockOf(priced)))
    ensures r == Added(false) && s == Submission(w, CHECKS, Room(false, [t, t], true))
  {
    ghost var rules, stock := pool.RulesFor(false), StockOf(priced);
    assert ListedTwice(stock, t, rest);
    r, s := Apply(pool, priced, w);
    OneSlotOver(rules, stock, s, t, rest);
  }

  /** A transaction returns to the pool before its stale entry is found: it is listed twice.
      For one of two slots, dearer than all, both entries are dropped as if they freed two
      slots, and the pool ends over its capacity. */
  method Overfull() returns (pool: TxPool, priced: TxPricedList, r: AddResult, ghost s: Submission, ghost stock: Stock)
    ensures fresh(pool) && Kept(pool, priced) && r == Added(false) && !pool.RulesFor(false).IsLocal(s.tx.sender)
    ensures pool.config.Capacity() == 4 && NumSlots(s.tx) == 2 && SumSlots(stock.remotes) == 4
    ensures |s.room.drop| == 2 && s.room.drop[0] == s.room.drop[1] && SlotsOf(s.room.drop) == 2
    ensures !ListedOnce(stock.listed) && pool.all.slots == 5
    ensures Asked(pool.RulesFor(false), stock.remotes, s, stock)
  {
    var t := Make(1, 0, 0, 1);
    var w := Make(3, 0, 1, 2);
    ghost var rest;
    pool, priced, rest := Returned(t);
    stock := StockOf(priced);
    SlotsOfTwo(t, t);
    assert stock.listed.Count(t) == 2 && stock.remotes == rest + {t};
    r, s := Overflow(pool, priced, w, t, rest);
  }
}
