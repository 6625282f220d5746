/** Admission to the pool with its price heaps: a full pool makes room for a newcomer by
    dropping what the heaps find cheapest. */
module Admission {
  import opened Transactions
  import opened Accounts
  import opened Arrivals
  import opened PricedList
  import opened Pool

  /** Every remote transaction of the pool has an entry, so that it can be evicted. */
  ghost predicate Tracks(entries: Entries, remotes: set<Tx>) {
    forall t :: t in remotes ==> entries.Count(t) >= 1
  }

  ghost predicate ListedOnce(entries: Entries) {
    forall t :: entries.Count(t) <= 1
  }

  /** A remote transaction has got an urgent entry, a local one none. */
  ghost predicate Joined(was: Entries, now: Entries, tx: Tx, local: bool) {
    && now.floating == was.floating && now.stales == was.stales
    && multiset(now.urgent) == multiset(was.urgent) + (if local then multiset{} else multiset{tx})
    && |now.urgent| == |was.urgent| + (if local then 0 else 1)
  }

  /** What the heaps go by when they answer. */
  datatype Stock = Stock(listed: Entries, baseFee: Option<nat>, remotes: set<Tx>)

  ghost function StockOf(priced: TxPricedList): Stock
    reads priced, priced.all
  {
    Stock(priced.Listed(), priced.baseFee, priced.all.remotes)
  }

  /** Something is listed, and nothing of it pays less than a transaction. */
  ghost predicate PaysLeast(stock: Stock, tx: Tx) {
    && !(NoneLive(stock.listed.urgent, stock.remotes) && NoneLive(stock.listed.floating, stock.remotes))
    && NoneCheaper(stock.listed.urgent, tx, stock.baseFee, stock.remotes)
    && NoneCheaper(stock.listed.floating, tx, None, stock.remotes)
  }

  /** What stays listed may wait for what is dropped, and this for what was dropped before it. */
  ghost predicate DropsCheapest(stock: Stock, drop: seq<Tx>) {
    && (forall x, y :: StaysListed(stock, drop, x) && y in drop ==> Waits(stock.listed, x, y, stock.baseFee))
    && InTurn(stock.listed, drop, stock.baseFee)
  }

  /** A remote transaction is listed more often than it is dropped. */
  ghost predicate StaysListed(stock: Stock, drop: seq<Tx>, x: Tx) {
    x in stock.remotes && multiset(drop)[x] < stock.listed.Count(x)
  }

  ghost predicate NothingStays(stock: Stock, drop: seq<Tx>) {
    forall t :: t in stock.remotes ==> !StaysListed(stock, drop, t)
  }

  /** What is dropped is remote and not dropped more often than it is listed. */
  ghost predicate DropsListed(stock: Stock, drop: seq<Tx>) {
    forall t :: t in drop ==> t in stock.remotes && multiset(drop)[t] <= stock.listed.Count(t)
  }

  /** What the heaps answer when a transaction comes to a full pool: whether it is too cheap and
      whether it finds room, and then as few of the cheapest remote ones as free the slots, or
      all of them if they do not. */
  ghost predicate HeapsAnswer(stock: Stock, room: Room, tx: Tx, needed: int, isLocal: bool) {
    var enough := needed <= SlotsOf(Live(stock.listed, stock.remotes));
    && (room.underpriced <==> !isLocal && PaysLeast(stock, tx))
    && (room.success <==> !room.underpriced && (isLocal || enough))
    && (!room.success ==> room.drop == [])
    && (room.success && enough ==> needed <= SlotsOf(room.drop))
    && (room.success && !enough ==> NothingStays(stock, room.drop))
    && (room.drop != [] ==> SlotsOf(room.drop[..|room.drop| - 1]) < needed)
    && DropsListed(stock, room.drop) && DropsCheapest(stock, room.drop)
  }

  /** What the heaps still list after their answer. */
  ghost predicate Left(stock: Stock, left: Entries, room: Room) {
    && Conserved(stock.listed, left, room.drop, stock.remotes)
    && (room.success ==> Cheapest(stock.listed, left, room.drop, stock.baseFee))
  }

  lemma DropsAreCheapest(stock: Stock, left: Entries, drop: seq<Tx>)
    requires Conserved(stock.listed, left, drop, stock.remotes)
    requires Cheapest(stock.listed, left, drop, stock.baseFee) && InTurn(stock.listed, drop, stock.baseFee)
    ensures DropsCheapest(stock, drop) && DropsListed(stock, drop)
  {
    forall t | t in drop ensures t in stock.remotes && multiset(drop)[t] <= stock.listed.Count(t) {
      assert t in multiset(drop);
    }
    forall x, y | StaysListed(stock, drop, x) && y in drop ensures Waits(stock.listed, x, y, stock.baseFee) {
      assert left.Count(x) > 0;
      assert x in multiset(left.urgent) || x in multiset(left.floating);
      CheapestWaits(stock.listed, left, drop, stock.baseFee, x, y);
    }
  }

  /** If all that is listed does not free the slots, nothing stays. */
  lemma DropsAll(stock: Stock, left: Entries, drop: seq<Tx>, needed: int)
    requires Conserved(stock.listed, left, drop, stock.remotes)
    requires SlotsOf(Live(stock.listed, stock.remotes)) < needed
    requires SlotsOf(drop) < needed ==> left.urgent == left.floating == []
    ensures NothingStays(stock, drop)
  {
    ConservedSlots(stock.listed, left, drop, stock.remotes);
    assert forall t :: left.Count(t) == 0;
  }

  /** Pruning the heaps beforehand makes no difference to what discarding leaves. */
  lemma PrunedFirst(stock: Stock, pruned: Entries, left: Entries, drop: seq<Tx>, ok: bool)
    requires stock.listed == pruned || Conserved(stock.listed, pruned, [], stock.remotes)
    requires forall t :: t in pruned.urgent ==> t in stock.listed.urgent
    requires forall t :: t in pruned.floating ==> t in stock.listed.floating
    requires Conserved(pruned, left, drop, stock.remotes)
    requires ok ==> Cheapest(pruned, left, drop, stock.baseFee) && InTurn(pruned, drop, stock.baseFee)
    ensures SlotsOf(Live(stock.listed, stock.remotes)) == SlotsOf(Live(pruned, stock.remotes))
    ensures Left(stock, left, Room(false, drop, ok)) && (ok ==> InTurn(stock.listed, drop, stock.baseFee))
  {
    StillListed(stock.listed, pruned, stock.remotes);
    ConservedTwice(stock.listed, pruned, left, drop, stock.remotes);
    if ok {
      CheapestPruned(stock.listed, pruned, left, drop, stock.baseFee);
    }
  }

  /** What discarding finds is the answer of the heaps. */
  lemma DiscardAnswers(stock: Stock, left: Entries, drop: seq<Tx>, ok: bool, tx: Tx, needed: int, isLocal: bool)
    requires Left(stock, left, Room(false, drop, ok)) && (ok ==> InTurn(stock.listed, drop, stock.baseFee))
    requires isLocal || !PaysLeast(stock, tx)
    requires ok <==> isLocal || needed <= SlotsOf(Live(stock.listed, stock.remotes))
    requires !ok ==> drop == []
    requires ok && needed <= SlotsOf(Live(stock.listed, stock.remotes)) ==> needed <= SlotsOf(drop)
    requires drop != [] ==> SlotsOf(drop[..|drop| - 1]) < needed
    requires ok && SlotsOf(drop) < needed ==> left.urgent == left.floating == []
    ensures HeapsAnswer(stock, Room(false, drop, ok), tx, needed, isLocal)
  {
    if ok {
      DropsAreCheapest(stock, left, drop);
      if SlotsOf(Live(stock.listed, stock.remotes)) < needed {
        DropsAll(stock, left, drop, needed);
      }
    }
  }

  /** Asks the heaps for the slots that a transaction needs in a full pool. */
  method FindRoom(priced: TxPricedList, tx: Tx, needed: int, isLocal: bool) returns (room: Room)
    requires priced.Valid()
    modifies priced
    ensures priced.Valid() && priced.baseFee == old(priced.baseFee)
    ensures Left(old(StockOf(priced)), priced.Listed(), room)
    ensures HeapsAnswer(old(StockOf(priced)), room, tx, needed, isLocal)
    ensures ListedOnce(old(priced.Listed())) ==> Distinct(room.drop)
  {
    ghost var stock := StockOf(priced);
    var under := false;
    if !isLocal {
      under := priced.Underpriced(tx);
    }
    if under {
      return Room(true, [], false);
    }
    ghost var pruned := priced.Listed();
    StillListed(old(priced.Listed()), pruned, priced.all.remotes);
    var drop, ok := priced.Discard(needed, isLocal);
    PrunedFirst(stock, pruned, priced.Listed(), drop, ok);
    DiscardAnswers(stock, priced.Listed(), drop, ok, tx, needed, isLocal);
    return Room(false, drop, ok);
  }

  lemma ConservedTwice(a: Entries, b: Entries, c: Entries, drop: seq<Tx>, remotes: set<Tx>)
    requires a == b || Conserved(a, b, [], remotes)
    requires Conserved(b, c, drop, remotes)
    ensures Conserved(a, c, drop, remotes)
  {
  }

  lemma StillListed(was: Entries, now: Entries, remotes: set<Tx>)
    requires was == now || Conserved(was, now, [], remotes)
    ensures SlotsOf(Live(was, remotes)) == SlotsOf(Live(now, remotes))
    ensures ListedOnce(was) ==> ListedOnce(now)
  {
    if was != now {
      ConservedSlots(was, now, [], remotes);
      forall t ensures now.Count(t) <= was.Count(t) {
        assert t in remotes || t !in remotes;
      }
    }
  }

  /** The pool and its heaps go together, and every remote transaction is listed. */
  ghost predicate Kept(pool: TxPool, priced: TxPricedList)
    reads pool, pool.all, pool.pendingNonces, priced
  {
    && pool.Consistent() && pool.Apart() && priced.Valid() && priced.all == pool.all
    && Tracks(priced.Listed(), pool.all.remotes)
  }

  /** The slots by which a transaction would overfill the pool. */
  function Needed(pool: TxPool, tx: Tx): int
    reads pool, pool.all
  {
    pool.all.slots + NumSlots(tx) - pool.config.Capacity()
  }

  /** All remote transactions that the heaps list take as many slots as are needed. */
  ghost predicate EnoughListed(priced: TxPricedList, needed: int)
    reads priced, priced.all
  {
    needed <= SlotsOf(Live(priced.Listed(), priced.all.remotes))
  }

  lemma DropPooled(was: Entries, now: Entries, drop: seq<Tx>, remotes: set<Tx>)
    requires Conserved(was, now, drop, remotes)
    ensures Elements(drop) <= remotes
  {
  }

  /** The heaps are asked for a transaction: it is valid and the pool full. */
  ghost predicate Asks(rules: Rules, txs: set<Tx>, s: Submission) {
    Admissible(rules, s.tx in txs, SumSlots(txs), s.tx, s.checks) && rules.Overfills(SumSlots(txs), s.tx)
  }

  /** What a transaction is told about room: what the heaps answer, if nothing else stands against
      it and the pool is full. */
  ghost predicate Asked(rules: Rules, txs: set<Tx>, s: Submission, stock: Stock) {
    if Asks(rules, txs, s)
    then HeapsAnswer(stock, s.room, s.tx, SumSlots(txs) + NumSlots(s.tx) - rules.config.Capacity(),
                     rules.IsLocal(s.tx.sender))
    else s.room == Room(false, [], true)
  }

  /** Asks the heaps for room once a transaction is valid and the pool is full. */
  method AskForRoom(pool: TxPool, priced: TxPricedList, tx: Tx, checks: Checks, local: bool) returns (room: Room)
    requires pool.Consistent() && priced.Valid() && priced.all == pool.all
    modifies priced
    ensures priced.Valid() && priced.baseFee == old(priced.baseFee)
    ensures Conserved(old(priced.Listed()), priced.Listed(), room.drop, pool.all.remotes)
    ensures Asked(pool.RulesFor(local), pool.all.Txs(), Submission(tx, checks, room), old(StockOf(priced)))
    ensures if Asks(pool.RulesFor(local), pool.all.Txs(), Submission(tx, checks, room))
            then Left(old(StockOf(priced)), priced.Listed(), room) else priced.Listed() == old(priced.Listed())
    ensures RoomFor(pool.RulesFor(local), pool.all.Txs(), tx, checks, room, Needed(pool, tx),
                    old(EnoughListed(priced, Needed(pool, tx))), ListedOnce(old(priced.Listed())))
  {
    var rules := pool.RulesFor(local);
    room := Room(false, [], true);
    if Admissible(rules, pool.all.Has(tx), pool.all.slots, tx, checks) && rules.Overfills(pool.all.slots, tx) {
      room := FindRoom(priced, tx, Needed(pool, tx), rules.IsLocal(tx.sender));
      DropPooled(old(priced.Listed()), priced.Listed(), room.drop, pool.all.remotes);
    }
    RefusedForRoom(rules, pool.all.Has(tx), pool.all.slots, Submission(tx, checks, room));
  }

  /** The room found for a transaction: something is dropped only for one that is admitted to
      a full pool, and enough of it if there is enough and nothing is listed twice. There is
      enough for every remote transaction that is admitted. */
  ghost predicate RoomFor(rules: Rules, txs: set<Tx>, tx: Tx, checks: Checks, room: Room, needed: int,
                          enough: bool, once: bool) {
    var admitted := rules.Refusal(txs, Submission(tx, checks, room)).None? && rules.Overfills(SumSlots(txs), tx);
    && (room.drop != [] ==> admitted)
    && (admitted && !rules.IsLocal(tx.sender) ==> enough)
    && (admitted && once && enough ==> MakesRoom(room.drop, txs, needed))
  }

  /** Which transactions are remote after an offer: those that were and are still there, and
      the newcomer, unless it is local. An offer from the node itself may make the others of
      its sender local. */
  ghost predicate RemotesFollow(rules: Rules, txs: set<Tx>, s: Submission, was: set<Tx>, now: set<Tx>) {
    var comes := rules.Answer(txs, s).Added? && !rules.IsLocal(s.tx.sender);
    var all := was * rules.TxsAfter(txs, s) + if comes then {s.tx} else {};
    now <= all && forall t :: t in all && !(rules.local && t.sender == s.tx.sender) ==> t in now
  }

  lemma SidesFollow(rules: Rules, txs: set<Tx>, s: Submission, locals: set<Tx>, remotes: set<Tx>, locals': set<Tx>,
                    remotes': set<Tx>)
    requires txs == locals + remotes && locals !! remotes
    requires forall t :: t in remotes ==> t.sender !in rules.locals
    requires rules.TxsAfter(txs, s) == locals' + remotes'
    requires remotes' <= remotes + if rules.IsLocal(s.tx.sender) then {} else {s.tx}
    requires rules.Answer(txs, s).Rejected? ==> remotes' <= remotes
    requires !rules.local ==> locals' <= locals + if rules.IsLocal(s.tx.sender) then {s.tx} else {}
    requires forall t :: t in locals' ==> t in locals || t.sender == s.tx.sender
    ensures RemotesFollow(rules, txs, s, remotes, remotes')
  {
  }

  /** What the heaps go by after an offer: what they left when they were asked, and the newcomer
      if it is taken. */
  ghost predicate Restocked(rules: Rules, txs: set<Tx>, s: Submission, stock: Stock, next: Stock) {
    && next.baseFee == stock.baseFee && RemotesFollow(rules, txs, s, stock.remotes, next.remotes)
    && exists left :: Hands(rules, txs, s, stock, left, next.listed)
  }

  ghost predicate Hands(rules: Rules, txs: set<Tx>, s: Submission, stock: Stock, left: Entries, next: Entries) {
    && (if Asks(rules, txs, s) then Left(stock, left, s.room) else left == stock.listed)
    && if rules.Answer(txs, s).Added? then Joined(left, next, s.tx, rules.IsLocal(s.tx.sender)) else next == left
  }

  /** Adds a transaction to the pool. */
  method Enter(pool: TxPool, s: Submission, local: bool) returns (r: AddResult)
    requires pool.Consistent() && pool.Apart()
    modifies pool`pending, pool`queue, pool`locals, pool.all, pool.pendingNonces
    ensures pool.Consistent() && pool.Apart() && (!local ==> pool.locals == old(pool.locals))
    ensures r == old(pool.RulesFor(local).Answer(pool.all.Txs(), s))
    ensures pool.all.Txs() == old(pool.RulesFor(local).TxsAfter(pool.all.Txs(), s))
    ensures forall a {:trigger Sender(a)} :: Sender(a) ==>
      pool.V(a) == old(pool.RulesFor(local).ViewAfter(a, pool.V(a), pool.all.Txs(), s))
    ensures !local && s.tx.sender !in old(pool.locals) ==> pool.all.locals <= old(pool.all.locals)
    ensures RemotesFollow(old(pool.RulesFor(local)), old(pool.all.Txs()), s, old(pool.all.remotes), pool.all.remotes)
  {
    r := pool.AddTx(s, local);
    SidesFollow(old(pool.RulesFor(local)), old(pool.all.Txs()), s, old(pool.all.locals), old(pool.all.remotes),
                pool.all.locals, pool.all.remotes);
  }

  /** Adds a transaction to the pool and, if it is taken, to the heaps. */
  method Place(pool: TxPool, priced: TxPricedList, s: Submission, local: bool) returns (r: AddResult)
    requires pool.Consistent() && pool.Apart() && priced.Valid() && priced.all == pool.all
    modifies pool`pending, pool`queue, pool`locals, pool.all, pool.pendingNonces, priced
    ensures pool.Consistent() && pool.Apart() && priced.Valid() && priced.baseFee == old(priced.baseFee)
    ensures r == old(pool.RulesFor(local).Answer(pool.all.Txs(), s))
    ensures pool.all.Txs() == old(pool.RulesFor(local).TxsAfter(pool.all.Txs(), s))
    ensures forall a {:trigger Sender(a)} :: Sender(a) ==>
      pool.V(a) == old(pool.RulesFor(local).ViewAfter(a, pool.V(a), pool.all.Txs(), s))
    ensures !local ==> pool.locals == old(pool.locals)
    ensures !local && s.tx.sender !in old(pool.locals) ==> pool.all.locals <= old(pool.all.locals)
    ensures RemotesFollow(old(pool.RulesFor(local)), old(pool.all.Txs()), s, old(pool.all.remotes), pool.all.remotes)
    ensures if r.Added?
            then Joined(old(priced.Listed()), priced.Listed(), s.tx, old(pool.RulesFor(local).IsLocal(s.tx.sender)))
            else priced.Listed() == old(priced.Listed())
  {
    var isLocal := pool.RulesFor(local).IsLocal(s.tx.sender);
    r := Enter(pool, s, local);
    if r.Added? {
      priced.Put(s.tx, isLocal);
    }
  }

  /** What is remote after an offer was so before and is not dropped, or is the newcomer. */
  ghost predicate Remain(was: set<Tx>, now: set<Tx>, drop: seq<Tx>, tx: Tx, comes: bool) {
    forall t :: t in now ==> (t in was && t !in drop) || (t == tx && comes)
  }

  lemma RemotesRemain(rules: Rules, txs: set<Tx>, s: Submission, was: set<Tx>, now: set<Tx>)
    requires was <= txs && RemotesFollow(rules, txs, s, was, now)
    requires s.room.drop != [] ==> rules.Refusal(txs, s).None? && rules.Overfills(SumSlots(txs), s.tx)
    ensures Remain(was, now, s.room.drop, s.tx, rules.Answer(txs, s).Added? && !rules.IsLocal(s.tx.sender))
  {
    DroppedGone(rules, txs, s);
  }

  /** Every remote transaction stays listed: what the heaps left, and the newcomer. */
  lemma TracksNext(stock: Stock, left: Entries, next: Stock, drop: seq<Tx>, tx: Tx, added: bool, isLocal: bool)
    requires Tracks(stock.listed, stock.remotes) && Conserved(stock.listed, left, drop, stock.remotes)
    requires if added then Joined(left, next.listed, tx, isLocal) else next.listed == left
    requires Remain(stock.remotes, next.remotes, drop, tx, added && !isLocal)
    ensures Tracks(next.listed, next.remotes)
  {
    forall t | t in next.remotes ensures next.listed.Count(t) >= 1 {
      assert t in stock.remotes && t !in drop ==> left.Count(t) >= 1;
      CountJoined(left, next.listed, tx, isLocal, t);
    }
  }

  lemma CountJoined(was: Entries, now: Entries, tx: Tx, local: bool, t: Tx)
    ensures Joined(was, now, tx, local) ==> now.Count(t) == was.Count(t) + if t == tx && !local then 1 else 0
  {
  }

  /** Asks for room and adds a transaction with the answer. */
  method AddWithRoom(pool: TxPool, priced: TxPricedList, tx: Tx, checks: Checks, local: bool)
      returns (r: AddResult, ghost s: Submission)
    requires Kept(pool, priced)
    modifies pool`pending, pool`queue, pool`locals, pool.all, pool.pendingNonces, priced
    ensures Kept(pool, priced) && s == Submission(tx, checks, s.room)
    ensures Asked(old(pool.RulesFor(local)), old(pool.all.Txs()), s, old(StockOf(priced)))
    ensures r == old(pool.RulesFor(local).Answer(pool.all.Txs(), s))
    ensures pool.all.Txs() == old(pool.RulesFor(local).TxsAfter(pool.all.Txs(), s))
    ensures forall a {:trigger Sender(a)} :: Sender(a) ==>
      pool.V(a) == old(pool.RulesFor(local).ViewAfter(a, pool.V(a), pool.all.Txs(), s))
    ensures Restocked(old(pool.RulesFor(local)), old(pool.all.Txs()), s, old(StockOf(priced)), StockOf(priced))
    ensures !local ==> pool.locals == old(pool.locals)
    ensures !local && tx.sender !in old(pool.locals) ==> pool.all.locals <= old(pool.all.locals)
    ensures Elements(s.room.drop) <= old(pool.all.remotes)
    ensures RoomFor(old(pool.RulesFor(local)), old(pool.all.Txs()), tx, checks, s.room, old(Needed(pool, tx)),
                    old(EnoughListed(priced, Needed(pool, tx))), ListedOnce(old(priced.Listed())))
  {
    ghost var rules, txs, stock := pool.RulesFor(local), pool.all.Txs(), StockOf(priced);
    var room := AskForRoom(pool, priced, tx, checks, local);
    ghost var left := priced.Listed();
    DropPooled(stock.listed, left, room.drop, stock.remotes);
    s := Submission(tx, checks, room);
    r := Place(pool, priced, Submission(tx, checks, room), local);
    assert Hands(rules, txs, s, stock, left, priced.Listed());
    RemotesRemain(rules, txs, s, stock.remotes, pool.all.remotes);
    TracksNext(stock, left, StockOf(priced), room.drop, tx, r.Added?, rules.IsLocal(tx.sender));
  }

  /** Adds a transaction to the pool and to the heaps, after dropping the cheapest remote
      ones from a full pool. `s` is the transaction with what the heaps answered. Every remote
      transaction stays tracked and no local sender loses one. The pool ends within capacity
      exactly if those that leave, each counted once, take the slots needed: always if no
      transaction is listed twice, unless it takes a local one that all remote ones together
      cannot make room for. */
  method Add(pool: TxPool, priced: TxPricedList, tx: Tx, checks: Checks, local: bool)
      returns (r: AddResult, ghost s: Submission)
    requires Kept(pool, priced)
    modifies pool`pending, pool`queue, pool`locals, pool.all, pool.pendingNonces, priced
    ensures Kept(pool, priced) && s == Submission(tx, checks, s.room)
    ensures Asked(old(pool.RulesFor(local)), old(pool.all.Txs()), s, old(StockOf(priced)))
    ensures r == old(pool.RulesFor(local).Answer(pool.all.Txs(), s))
    ensures pool.all.Txs() == old(pool.RulesFor(local).TxsAfter(pool.all.Txs(), s))
    ensures forall a {:trigger Sender(a)} :: Sender(a) ==>
      pool.V(a) == old(pool.RulesFor(local).ViewAfter(a, pool.V(a), pool.all.Txs(), s))
    ensures Restocked(old(pool.RulesFor(local)), old(pool.all.Txs()), s, old(StockOf(priced)), StockOf(priced))
    ensures !local ==> pool.locals == old(pool.locals)
    ensures !local && tx.sender !in old(pool.locals) ==> pool.all.locals <= old(pool.all.locals)
    ensures forall t :: t in s.room.drop ==> t.sender !in old(pool.locals)
    ensures r.Added? ==>
      (pool.all.slots <= pool.config.Capacity() <==>
       old(Needed(pool, tx)) <= old(SumSlots(Leaving(pool.RulesFor(local), pool.all.Txs(), s))))
    ensures r.Added? && ListedOnce(old(priced.Listed()))
            && (old(pool.RulesFor(local).IsLocal(tx.sender))
                ==> old(Needed(pool, tx) > 0 ==> EnoughListed(priced, Needed(pool, tx))))
            ==> pool.all.slots <= pool.config.Capacity()
  {
    ghost var rules, txs := pool.RulesFor(local), pool.all.Txs();
    ghost var enough, once := EnoughListed(priced, Needed(pool, tx)), ListedOnce(priced.Listed());
    r, s := AddWithRoom(pool, priced, tx, checks, local);
    assert forall t :: t in s.room.drop ==> t in Elements(s.room.drop);
    if r.Added? {
      RoomSuffices(rules, txs, tx, checks, s.room, enough, once);
      CapacityIff(rules, txs, s);
    }
  }

  lemma RoomSuffices(rules: Rules, txs: set<Tx>, tx: Tx, checks: Checks, room: Room, enough: bool, once: bool)
    requires rules.Answer(txs, Submission(tx, checks, room)).Added?
    requires RoomFor(rules, txs, tx, checks, room, SumSlots(txs) + NumSlots(tx) - rules.config.Capacity(), enough, once)
    ensures once && (rules.IsLocal(tx.sender) && rules.Overfills(SumSlots(txs), tx) ==> enough)
            ==> SumSlots(rules.TxsAfter(txs, Submission(tx, checks, room))) <= rules.config.Capacity()
  {
    if once && (rules.IsLocal(tx.sender) && rules.Overfills(SumSlots(txs), tx) ==> enough) {
      WithinCapacity(rules, txs, Submission(tx, checks, room));
    }
  }

  lemma DroppedGone(rules: Rules, txs: set<Tx>, s: Submission)
    requires s.room.drop != [] ==> rules.Refusal(txs, s).None? && rules.Overfills(SumSlots(txs), s.tx)
    ensures forall t :: t in s.room.drop && t in rules.TxsAfter(txs, s) ==> t == s.tx && rules.Answer(txs, s).Added?
  {
  }

  /** A transaction that comes to the pool with its heaps. */
  datatype Arrival = Arrival(tx: Tx, checks: Checks)

  /** A new chain head and the transactions to be put back for it. */
  datatype NewHead = NewHead(state: ChainState, maxGas: nat, arrivals: seq<Arrival>)

  datatype Step =
    | Submit(arrivals: seq<Arrival>, local: bool)
    | Reprice(price: nat)
    | Evict(expired: set<Address>)
    | Background(reset: Option<Option<NewHead>>, dirty: set<Address>, beats: Address -> nat)
    | Stale(count: nat)
    | Rebase(fee: Option<nat>)

  lemma TracksFewer(entries: Entries, remotes: set<Tx>, left: set<Tx>)
    requires Tracks(entries, remotes) && left <= remotes
    ensures Tracks(entries, left)
  {
  }

  lemma TracksRebuilt(entries: Entries, remotes: set<Tx>)
    requires multiset(entries.urgent) + multiset(entries.floating) == multiset(remotes)
    ensures Tracks(entries, remotes) && ListedOnce(entries)
  {
    forall t ensures entries.Count(t) == multiset(remotes)[t] {
      assert (multiset(entries.urgent) + multiset(entries.floating))[t] == multiset(remotes)[t];
    }
  }

  /** What is added with what the heaps answered is what arrived. */
  ghost predicate Offers(batch: seq<Submission>, arrivals: seq<Arrival>) {
    && |batch| == |arrivals|
    && forall i :: 0 <= i < |batch| ==> batch[i] == Submission(arrivals[i].tx, arrivals[i].checks, batch[i].room)
  }

  /** A transaction is told what the heaps have to answer and leaves them as it must. */
  ghost predicate Turn(rules: Rules, txs: set<Tx>, s: Submission, stock: Stock, next: Stock) {
    Asked(rules, txs, s, stock) && Restocked(rules, txs, s, stock, next)
  }

  /** Every transaction of a batch had its turn with the heaps as the one before left them.
      `stocks` is what they went by: at first, and after each transaction. */
  ghost predicate Consulted(rules: Rules, txs: set<Tx>, batch: seq<Submission>, stocks: seq<Stock>)
    decreases |batch|
  {
    && |stocks| == |batch| + 1 && stocks[|batch|].remotes <= TxsAfterAll(rules, txs, batch)
    && (batch != [] ==>
          var last := |batch| - 1;
          && Consulted(rules, txs, batch[..last], stocks[..|batch|])
          && Turn(rules, TxsAfterAll(rules, txs, batch[..last]), batch[last], stocks[last], stocks[|batch|]))
  }

  lemma ConsultedNext(rules: Rules, txs: set<Tx>, batch: seq<Submission>, stocks: seq<Stock>, s: Submission,
                      next: Stock)
    requires Consulted(rules, txs, batch, stocks)
    requires Turn(rules, TxsAfterAll(rules, txs, batch), s, stocks[|batch|], next)
    requires next.remotes <= TxsAfterAll(rules, txs, batch + [s])
    ensures Consulted(rules, txs, batch + [s], stocks + [next])
  {
    assert (batch + [s])[..|batch|] == batch && (stocks + [next])[..|stocks|] == stocks;
  }

  lemma AsksAside(rules: Rules, locals: set<Address>, txs: set<Tx>, s: Submission)
    requires rules.local || locals == rules.locals
    ensures Asks(rules.(locals := locals), txs, s) <==> Asks(rules, txs, s)
  {
  }

  lemma AskedAside(rules: Rules, locals: set<Address>, txs: set<Tx>, s: Submission, stock: Stock)
    requires rules.local || locals == rules.locals
    ensures Asked(rules.(locals := locals), txs, s, stock) <==> Asked(rules, txs, s, stock)
  {
    AsksAside(rules, locals, txs, s);
    assert rules.(locals := locals).IsLocal(s.tx.sender) == rules.IsLocal(s.tx.sender);
  }

  lemma FollowAside(rules: Rules, locals: set<Address>, txs: set<Tx>, s: Submission, was: set<Tx>, now: set<Tx>)
    requires rules.local || locals == rules.locals
    ensures RemotesFollow(rules.(locals := locals), txs, s, was, now) <==> RemotesFollow(rules, txs, s, was, now)
  {
    LocalsAside(rules, locals, txs, s);
  }

  lemma HandsAside(rules: Rules, locals: set<Address>, txs: set<Tx>, s: Submission, stock: Stock, left: Entries,
                   next: Entries)
    requires rules.local || locals == rules.locals
    ensures Hands(rules.(locals := locals), txs, s, stock, left, next) <==> Hands(rules, txs, s, stock, left, next)
  {
    LocalsAside(rules, locals, txs, s);
    AsksAside(rules, locals, txs, s);
  }

  /** To the turns of offers from the node itself it does not matter which senders are local. */
  lemma TurnAside(rules: Rules, locals: set<Address>, txs: set<Tx>, s: Submission, stock: Stock, next: Stock)
    requires rules.local || locals == rules.locals
    ensures Turn(rules.(locals := locals), txs, s, stock, next) <==> Turn(rules, txs, s, stock, next)
  {
    AskedAside(rules, locals, txs, s, stock);
    FollowAside(rules, locals, txs, s, stock.remotes, next.remotes);
    forall left ensures Hands(rules.(locals := locals), txs, s, stock, left, next.listed)
                        <==> Hands(rules, txs, s, stock, left, next.listed) {
      HandsAside(rules, locals, txs, s, stock, left, next.listed);
    }
  }

  method AddNext(pool: TxPool, priced: TxPricedList, arrival: Arrival, local: bool, ghost rules: Rules,
                 ghost start: Address -> View, ghost txs: set<Tx>, ghost done: seq<Submission>)
      returns (ghost s: Submission)
    requires Kept(pool, priced) && pool.Answered(rules, start, txs, done)
    requires pool.RulesFor(local) == rules.(locals := pool.locals) && (local || pool.locals == rules.locals)
    modifies pool`pending, pool`queue, pool`locals, pool.all, pool.pendingNonces, priced
    ensures Kept(pool, priced) && pool.Answered(rules, start, txs, done + [s])
    ensures pool.RulesFor(local) == rules.(locals := pool.locals) && (local || pool.locals == rules.locals)
    ensures s == Submission(arrival.tx, arrival.checks, s.room)
    ensures Turn(rules, TxsAfterAll(rules, txs, done), s, old(StockOf(priced)), StockOf(priced))
  {
    var r;
    r, s := Add(pool, priced, arrival.tx, arrival.checks, local);
    LocalsAside(rules, old(pool.locals), old(pool.all.Txs()), s);
    TurnAside(rules, old(pool.locals), old(pool.all.Txs()), s, old(StockOf(priced)), StockOf(priced));
    assert (done + [s])[..|done|] == done;
    forall a ensures pool.V(a) == ViewAfterAll(a, start(a), rules, txs, done + [s]) {
      assert Sender(a);
      LocalsAsideView(a, old(pool.V(a)), rules, old(pool.locals), old(pool.all.Txs()), s);
    }
  }

  /** Adds the next of a batch, whose first ones have had their turns. */
  method AddInTurn(pool: TxPool, priced: TxPricedList, arrival: Arrival, local: bool, ghost rules: Rules,
                   ghost start: Address -> View, ghost txs: set<Tx>, ghost done: seq<Submission>,
                   ghost stocks: seq<Stock>) returns (ghost more: seq<Submission>, ghost all: seq<Stock>)
    requires Kept(pool, priced) && pool.Answered(rules, start, txs, done)
    requires pool.RulesFor(local) == rules.(locals := pool.locals) && (local || pool.locals == rules.locals)
    requires Consulted(rules, txs, done, stocks) && stocks[|done|] == StockOf(priced)
    modifies pool`pending, pool`queue, pool`locals, pool.all, pool.pendingNonces, priced
    ensures Kept(pool, priced) && pool.Answered(rules, start, txs, more)
    ensures pool.RulesFor(local) == rules.(locals := pool.locals) && (local || pool.locals == rules.locals)
    ensures |more| == |done| + 1 && more[..|done|] == done
    ensures more[|done|] == Submission(arrival.tx, arrival.checks, more[|done|].room)
    ensures Consulted(rules, txs, more, all) && all[0] == stocks[0] && all[|more|] == StockOf(priced)
  {
    ghost var s := AddNext(pool, priced, arrival, local, rules, start, txs, done);
    ConsultedNext(rules, txs, done, stocks, s, StockOf(priced));
    more, all := done + [s], stocks + [StockOf(priced)];
  }

  lemma OffersNext(done: seq<Submission>, more: seq<Submission>, arrivals: seq<Arrival>, i: nat)
    requires i < |arrivals| && Offers(done, arrivals[..i]) && |more| == |done| + 1 && more[..|done|] == done
    requires more[i] == Submission(arrivals[i].tx, arrivals[i].checks, more[i].room)
    ensures Offers(more, arrivals[..i + 1])
  {
    forall k | 0 <= k < |more| ensures more[k] == Submission(arrivals[k].tx, arrivals[k].checks, more[k].room) {
      assert k < |done| ==> more[k] == done[k];
    }
  }

  /** Adds a batch. `batch` is what arrived with what the heaps answered each time. */
  method AddAll(pool: TxPool, priced: TxPricedList, arrivals: seq<Arrival>, local: bool)
      returns (ghost batch: seq<Submission>, ghost stocks: seq<Stock>)
    requires Kept(pool, priced)
    modifies pool`pending, pool`queue, pool`locals, pool.all, pool.pendingNonces, priced
    ensures Kept(pool, priced) && Offers(batch, arrivals)
    ensures Consulted(old(pool.RulesFor(local)), old(pool.all.Txs()), batch, stocks)
    ensures stocks[0] == old(StockOf(priced)) && stocks[|batch|] == StockOf(priced)
    ensures pool.Answered(old(pool.RulesFor(local)), old(pool.Snapshot()), old(pool.all.Txs()), batch)
    ensures !local ==> pool.locals == old(pool.locals)
  {
    ghost var rules, start, txs := pool.RulesFor(local), pool.Snapshot(), pool.all.Txs();
    batch, stocks := [], [StockOf(priced)];
    for i := 0 to |arrivals|
      invariant Kept(pool, priced) && Offers(batch, arrivals[..i]) && pool.Answered(rules, start, txs, batch)
      invariant pool.RulesFor(local) == rules.(locals := pool.locals) && (local || pool.locals == rules.locals)
      invariant Consulted(rules, txs, batch, stocks)
      invariant stocks[0] == old(StockOf(priced)) && stocks[|batch|] == StockOf(priced)
    {
      ghost var done := batch;
      batch, stocks := AddInTurn(pool, priced, arrivals[i], local, rules, start, txs, batch, stocks);
      OffersNext(done, batch, arrivals, i);
    }
    assert arrivals[..|arrivals|] == arrivals;
  }

  /** Switches the pool to a new head and puts transactions back through the heaps. `head` is
      that head, with what the heaps answered. */
  method ResetPool(pool: TxPool, priced: TxPricedList, news: NewHead)
      returns (ghost head: Head, ghost stocks: seq<Stock>)
    requires Kept(pool, priced)
    modifies pool, pool.all, pool.pendingNonces, priced
    ensures Kept(pool, priced) && fresh(pool.pendingNonces)
    ensures head == Head(news.state, news.maxGas, head.reinject) && Offers(head.reinject, news.arrivals)
    ensures pool.state == news.state && pool.maxGas == news.maxGas && pool.sunk == old(pool.Swamped(head))
    ensures pool.gasPrice == old(pool.gasPrice) && pool.locals == old(pool.locals)
    ensures Consulted(old(pool.RulesAt(head)), old(pool.all.Txs()), head.reinject, stocks)
    ensures stocks[0] == old(StockOf(priced)) && stocks[|head.reinject|] == StockOf(priced)
    ensures pool.all.Txs() == old(pool.ReadyTxs(Some(Switched(head))))
    ensures forall a {:trigger Sender(a)} :: Sender(a) ==>
      pool.V(a) == old(pool.ReadyView(Some(Switched(head)), a))
  {
    pool.SwitchHead(Head(news.state, news.maxGas, []));
    ghost var batch;
    batch, stocks := AddAll(pool, priced, news.arrivals, false);
    head := Head(news.state, news.maxGas, batch);
    pool.sunk := old(pool.Swamped(head));
  }

  /** A background run of the pool with its heaps: what is put back for a new head goes through
      the heaps as well. `outcome` is what comes of the reset, with what the heaps answered, and
      everyone ends as a run of the pool with that outcome makes them end. */
  method RunBackground(pool: TxPool, priced: TxPricedList, reset: Option<Option<NewHead>>, dirty: set<Address>,
                       beats: Address -> nat)
      returns (ghost outcome: Option<ResetOutcome>, ghost stocks: seq<Stock>, ghost level: nat, ghost cut: set<Address>)
    requires Kept(pool, priced)
    modifies pool, pool.all, pool.pendingNonces, priced
    ensures Kept(pool, priced) && pool.gasPrice == old(pool.gasPrice) && pool.locals == old(pool.locals)
    ensures pool.pendingNonces == old(pool.pendingNonces) || fresh(pool.pendingNonces)
    ensures IsOutcome(outcome, reset)
    ensures Switches(outcome) ==>
      && Consulted(old(pool.RulesAt(outcome.value.head)), old(pool.all.Txs()), outcome.value.head.reinject, stocks)
      && stocks[0] == old(StockOf(priced)) && stocks[|stocks| - 1].listed == priced.Listed()
    ensures reset.None? ==>
      && priced.Listed() == old(priced.Listed()) && priced.baseFee == old(priced.baseFee)
      && pool.Shrinks(old(pool.all.locals), old(pool.all.remotes))
    ensures forall a {:trigger Sender(a)} :: Sender(a) ==>
      RunOutcome(old(pool.V(a)), old(pool.E(a)), old(pool.ReadyView(outcome, a)), pool.V(a), pool.E(a),
                 pool.TermsOf(a, reset.Some?, dirty, level, cut), old(pool.Afloat(outcome, a)),
                 old(pool.Uncrowded(outcome, a)))
    ensures pool.Levels(level, cut) && pool.PendingWithinLimits() && pool.QueueWithinLimits()
    ensures if Switches(outcome)
            then pool.state == outcome.value.head.state && pool.maxGas == outcome.value.head.maxGas
                 && pool.sunk == old(pool.Swamped(outcome.value.head))
            else pool.state == old(pool.state) && pool.maxGas == old(pool.maxGas) && pool.sunk == old(pool.sunk)
  {
    outcome, stocks, level, cut := ServeBackground(pool, priced, reset, dirty, beats);
    forall a ensures RunOutcome(old(pool.V(a)), old(pool.E(a)), old(pool.ReadyView(outcome, a)), pool.V(a), pool.E(a),
                                pool.TermsOf(a, reset.Some?, dirty, level, cut), old(pool.Afloat(outcome, a)),
                                old(pool.Uncrowded(outcome, a))) {
      assert Sender(a);
      if Steady(old(pool.V(a)), old(pool.E(a)), pool.E(a)) {
        SettledIsSettling(old(pool.V(a)), old(pool.E(a)));
        if Switches(outcome) {
          ghost var head := outcome.value.head;
          PutBack(a, old(pool.V(a)), old(pool.E(a)), old(pool.RulesAt(head)), old(pool.all.Txs()), head.reinject);
        }
      }
      RunEnds(old(pool.V(a)), old(pool.E(a)), old(pool.ReadyView(outcome, a)), pool.V(a), pool.E(a),
              pool.TermsOf(a, reset.Some?, dirty, level, cut), old(pool.Afloat(outcome, a)),
              old(pool.Uncrowded(outcome, a)));
    }
  }

  /** What comes of a reset request: nothing without one, else a new head or none. */
  ghost predicate IsOutcome(outcome: Option<ResetOutcome>, reset: Option<Option<NewHead>>) {
    && (outcome.Some? <==> reset.Some?)
    && (Switches(outcome) <==> reset.Some? && reset.value.Some?)
    && (Switches(outcome) ==>
          var head, news := outcome.value.head, reset.value.value;
          head == Head(news.state, news.maxGas, head.reinject) && Offers(head.reinject, news.arrivals))
  }

  /** The first part of such a run: the new head, if there is one. */
  method PrepareRun(pool: TxPool, priced: TxPricedList, reset: Option<Option<NewHead>>)
      returns (ghost outcome: Option<ResetOutcome>, ghost stocks: seq<Stock>)
    requires Kept(pool, priced)
    modifies pool, pool.all, pool.pendingNonces, priced
    ensures Kept(pool, priced) && pool.gasPrice == old(pool.gasPrice) && pool.locals == old(pool.locals)
    ensures pool.pendingNonces == old(pool.pendingNonces) || fresh(pool.pendingNonces)
    ensures IsOutcome(outcome, reset)
    ensures Switches(outcome) ==>
      && Consulted(old(pool.RulesAt(outcome.value.head)), old(pool.all.Txs()), outcome.value.head.reinject, stocks)
      && stocks[0] == old(StockOf(priced)) && stocks[|stocks| - 1].listed == priced.Listed()
    ensures reset.None? ==>
      && priced.Listed() == old(priced.Listed()) && priced.baseFee == old(priced.baseFee)
      && pool.Shrinks(old(pool.all.locals), old(pool.all.remotes))
    ensures pool.all.Txs() == old(pool.ReadyTxs(outcome))
    ensures forall a {:trigger Sender(a)} :: Sender(a) ==>
      pool.V(a) == old(pool.ReadyView(outcome, a)) && pool.E(a) == old(pool.LimitsAfter(outcome, a))
    ensures if Switches(outcome)
            then pool.state == outcome.value.head.state && pool.maxGas == outcome.value.head.maxGas
                 && pool.sunk == old(pool.Swamped(outcome.value.head))
            else pool.state == old(pool.state) && pool.maxGas == old(pool.maxGas) && pool.sunk == old(pool.sunk)
  {
    outcome, stocks := if reset.None? then None else Some(Skipped), [];
    if reset.Some? && reset.value.Some? {
      ghost var head;
      head, stocks := ResetPool(pool, priced, reset.value.value);
      outcome := Some(Switched(head));
    }
  }

  /** The parts of such a run, one after the other. */
  method ServeBackground(pool: TxPool, priced: TxPricedList, reset: Option<Option<NewHead>>, dirty: set<Address>,
                         beats: Address -> nat)
      returns (ghost outcome: Option<ResetOutcome>, ghost stocks: seq<Stock>, ghost level: nat, ghost cut: set<Address>)
    requires Kept(pool, priced)
    modifies pool, pool.all, pool.pendingNonces, priced
    ensures Kept(pool, priced) && pool.gasPrice == old(pool.gasPrice) && pool.locals == old(pool.locals)
    ensures pool.pendingNonces == old(pool.pendingNonces) || fresh(pool.pendingNonces)
    ensures IsOutcome(outcome, reset)
    ensures Switches(outcome) ==>
      && Consulted(old(pool.RulesAt(outcome.value.head)), old(pool.all.Txs()), outcome.value.head.reinject, stocks)
      && stocks[0] == old(StockOf(priced)) && stocks[|stocks| - 1].listed == priced.Listed()
    ensures reset.None? ==>
      && priced.Listed() == old(priced.Listed()) && priced.baseFee == old(priced.baseFee)
      && pool.Shrinks(old(pool.all.locals), old(pool.all.remotes))
    ensures forall a {:trigger Sender(a)} :: Sender(a) ==>
      && pool.E(a) == old(pool.LimitsAfter(outcome, a))
      && Ran(old(pool.ReadyView(outcome, a)), pool.V(a), pool.E(a), pool.TermsOf(a, reset.Some?, dirty, level, cut))
      && (old(pool.Uncrowded(outcome, a)) ==>
            pool.V(a) == AfterRun(old(pool.ReadyView(outcome, a)), pool.E(a), DutyTo(a, reset.Some?, dirty)))
    ensures pool.Levels(level, cut) && pool.PendingWithinLimits() && pool.QueueWithinLimits()
    ensures if Switches(outcome)
            then pool.state == outcome.value.head.state && pool.maxGas == outcome.value.head.maxGas
                 && pool.sunk == old(pool.Swamped(outcome.value.head))
            else pool.state == old(pool.state) && pool.maxGas == old(pool.maxGas) && pool.sunk == old(pool.sunk)
  {
    outcome, stocks := PrepareRun(pool, priced, reset);
    label ready:
    ghost var remotes := pool.all.remotes;
    level, cut := pool.Work(reset.Some?, dirty, beats);
    TracksFewer(priced.Listed(), remotes, pool.all.remotes);
    forall a
      ensures pool.E(a) == old(pool.LimitsAfter(outcome, a))
      ensures Ran(old(pool.ReadyView(outcome, a)), pool.V(a), pool.E(a),
                  pool.TermsOf(a, reset.Some?, dirty, level, cut))
      ensures old(pool.Uncrowded(outcome, a)) ==>
        pool.V(a) == AfterRun(old(pool.ReadyView(outcome, a)), pool.E(a), DutyTo(a, reset.Some?, dirty)) {
      assert Sender(a);
      assert old@ready(pool.V(a)) == old(pool.ReadyView(outcome, a));
    }
  }

  method Take(pool: TxPool, priced: TxPricedList, step: Step)
    requires Kept(pool, priced)
    modifies pool, pool.all, pool.pendingNonces, priced
    ensures Kept(pool, priced)
    ensures pool.pendingNonces == old(pool.pendingNonces) || fresh(pool.pendingNonces)
  {
    ghost var remotes := pool.all.remotes;
    match step {
      case Submit(arrivals, local) =>
        ghost var batch, stocks := AddAll(pool, priced, arrivals, local);
      case Reprice(price) =>
        pool.SetGasPrice(price);
        TracksFewer(priced.Listed(), remotes, pool.all.remotes);
      case Evict(expired) =>
        pool.EvictExpired(expired);
        TracksFewer(priced.Listed(), remotes, pool.all.remotes);
      case Background(reset, dirty, beats) =>
        ghost var outcome, stocks, level, cut := RunBackground(pool, priced, reset, dirty, beats);
      case Stale(count) =>
        priced.Removed(count);
        if multiset(priced.urgent) + multiset(priced.floating) == multiset(pool.all.remotes) {
          TracksRebuilt(priced.Listed(), pool.all.remotes);
        }
      case Rebase(fee) =>
        priced.SetBaseFee(fee);
        TracksRebuilt(priced.Listed(), pool.all.remotes);
    }
  }

  /** However additions, removals, resets, stale counts and rebuilds follow each other, every
      remote transaction in the pool is listed in the heaps and so can be evicted, and none is
      of a local sender. */
  method Run(pool: TxPool, priced: TxPricedList, steps: seq<Step>)
    requires Kept(pool, priced)
    modifies pool, pool.all, pool.pendingNonces, priced
    ensures Kept(pool, priced)
  {
    for i := 0 to |steps|
      invariant Kept(pool, priced)
      invariant pool.pendingNonces == old(pool.pendingNonces) || fresh(pool.pendingNonces)
    {
      Take(pool, priced, steps[i]);
    }
  }
}
