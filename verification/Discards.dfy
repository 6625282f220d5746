/** Which transactions a full pool drops, and whether it ends within capacity, told by what the
    price heaps hold before. */
module Discards {
  import opened Transactions
  import opened Arrivals
  import opened PricedList
  import opened Admission

  ghost predicate Lists(stock: Stock, t: Tx) {
    t in stock.remotes && stock.listed.Count(t) > 0
  }

  /** One order decides: what is cheaper by fee cap than an urgent entry is so at the base fee too,
      no urgent entry comes before a floating one, and no two come at the same place. */
  ghost predicate OneOrder(stock: Stock) {
    forall x, y {:trigger Lists(stock, x), Lists(stock, y)} :: Lists(stock, x) && Lists(stock, y) ==>
      && (y !in stock.listed.floating && Before(None)(x, y) ==> Before(stock.baseFee)(x, y))
      && (x in stock.listed.urgent && y in stock.listed.floating ==> !Before(None)(x, y))
      && (x != y ==> Before(None)(x, y) || Before(None)(y, x))
  }

  /** The entries before that of a transaction. */
  function Ahead(txs: seq<Tx>, t: Tx): seq<Tx> {
    if txs == [] then [] else
      var last := txs[|txs| - 1];
      Ahead(txs[..|txs| - 1], t) + if Before(None)(last, t) then [last] else []
  }

  lemma {:induction false} AheadCount(txs: seq<Tx>, t: Tx, x: Tx)
    ensures multiset(Ahead(txs, t))[x] == if Before(None)(x, t) then multiset(txs)[x] else 0
  {
    if txs != [] {
      AheadCount(txs[..|txs| - 1], t, x);
      assert txs == txs[..|txs| - 1] + [txs[|txs| - 1]];
    }
  }

  function Copies(t: Tx, k: nat): seq<Tx> {
    if k == 0 then [] else Copies(t, k - 1) + [t]
  }

  lemma {:induction false} CopiesCount(t: Tx, k: nat, x: Tx)
    ensures multiset(Copies(t, k))[x] == if x == t then k else 0
  {
    if k > 0 {
      CopiesCount(t, k - 1, x);
    }
  }

  /** The listed entries before that of a transaction, and some of its own. */
  ghost function Queue(stock: Stock, t: Tx, k: nat): seq<Tx> {
    Ahead(Live(stock.listed, stock.remotes), t) + Copies(t, k)
  }

  lemma QueueCount(stock: Stock, t: Tx, k: nat, x: Tx)
    ensures multiset(Queue(stock, t, k))[x] ==
      (if x in stock.remotes && Before(None)(x, t) then stock.listed.Count(x) else 0) + (if x == t then k else 0)
  {
    LiveCount(stock.listed, stock.remotes, x);
    AheadCount(Live(stock.listed, stock.remotes), t, x);
    CopiesCount(t, k, x);
  }

  lemma {:induction false} SlotsOfWithin(a: seq<Tx>, b: seq<Tx>)
    requires multiset(a) <= multiset(b)
    ensures SlotsOf(a) <= SlotsOf(b)
  {
    if a != [] {
      var init, last := a[..|a| - 1], a[|a| - 1];
      assert a == init + [last];
      assert last in multiset(a) && last in multiset(b);
      var k :| 0 <= k < |b| && b[k] == last;
      var left, right := b[..k], b[k + 1..];
      assert b == left + [last] + right;
      SlotsOfRemoved(left, last, right);
      RestWithin(init, left, right, last);
      SlotsOfWithin(init, left + right);
    }
  }

  lemma RestWithin(init: seq<Tx>, left: seq<Tx>, right: seq<Tx>, last: Tx)
    requires multiset(init + [last]) <= multiset(left + [last] + right)
    ensures multiset(init) <= multiset(left + right)
  {
    forall x ensures multiset(init)[x] <= multiset(left + right)[x] {
      assert multiset(init + [last])[x] <= multiset(left + [last] + right)[x];
    }
  }

  /** What the heaps drop where one order decides. */
  ghost predicate Fair(stock: Stock, drop: seq<Tx>) {
    && DropsCheapest(stock, drop) && OneOrder(stock)
    && forall t :: t in drop ==> Lists(stock, t) && multiset(drop)[t] <= stock.listed.Count(t)
  }

  /** Nothing that stays comes before what is dropped. */
  lemma StaysBehind(stock: Stock, drop: seq<Tx>, x: Tx, y: Tx)
    requires Fair(stock, drop) && StaysListed(stock, drop, x) && y in drop
    ensures !Before(None)(x, y)
  {
    assert Lists(stock, x) && Lists(stock, y);
    assert Waits(stock.listed, x, y, stock.baseFee);
    assert y in multiset(stock.listed.urgent) || y in multiset(stock.listed.floating);
  }

  /** Nor does what is dropped later. */
  lemma DroppedBehind(stock: Stock, drop: seq<Tx>, i: nat, j: nat)
    requires Fair(stock, drop) && i < j < |drop|
    ensures !Before(None)(drop[j], drop[i])
  {
    assert Lists(stock, drop[j]) && Lists(stock, drop[i]);
    assert Waits(stock.listed, drop[j], drop[i], stock.baseFee);
  }

  /** If an entry is left, all that is dropped comes before it or is of the same transaction. */
  lemma DropsOnlyAhead(stock: Stock, drop: seq<Tx>, t: Tx, k: nat)
    requires Fair(stock, drop) && Lists(stock, t) && multiset(drop)[t] <= k < stock.listed.Count(t)
    ensures SlotsOf(drop) <= SlotsOf(Queue(stock, t, k))
  {
    assert StaysListed(stock, drop, t);
    forall x ensures multiset(drop)[x] <= multiset(Queue(stock, t, k))[x] {
      QueueCount(stock, t, k, x);
      if x in drop && x != t {
        StaysBehind(stock, drop, t, x);
        assert Lists(stock, x);
      } else {
        assert x in drop || multiset(drop)[x] == 0;
      }
    }
    SlotsOfWithin(drop, Queue(stock, t, k));
  }

  /** If more of its entries are dropped, they and all before them came before the last. */
  lemma DropsAllAhead(stock: Stock, drop: seq<Tx>, t: Tx, k: nat)
    requires Fair(stock, drop) && k < multiset(drop)[t]
    ensures drop != [] && SlotsOf(Queue(stock, t, k)) <= SlotsOf(drop[..|drop| - 1])
  {
    assert t in drop;
    var init, last := drop[..|drop| - 1], drop[|drop| - 1];
    assert drop == init + [last];
    BeforeIsOrder(None);
    forall x ensures multiset(Queue(stock, t, k))[x] <= multiset(init)[x] {
      QueueCount(stock, t, k, x);
      if x in stock.remotes && Before(None)(x, t) && stock.listed.Count(x) > 0 {
        if StaysListed(stock, drop, x) {
          StaysBehind(stock, drop, x, t);
        }
        if x == last {
          LastNotAhead(stock, drop, t);
        }
      }
    }
    SlotsOfWithin(Queue(stock, t, k), init);
  }

  lemma LastNotAhead(stock: Stock, drop: seq<Tx>, t: Tx)
    requires Fair(stock, drop) && t in drop
    ensures !Before(None)(drop[|drop| - 1], t)
  {
    var i: nat :| i < |drop| && drop[i] == t;
    if i < |drop| - 1 {
      DroppedBehind(stock, drop, i, |drop| - 1);
    }
  }

  lemma AnswerIsFair(stock: Stock, room: Room, tx: Tx, needed: int, isLocal: bool)
    requires HeapsAnswer(stock, room, tx, needed, isLocal) && OneOrder(stock)
    ensures Fair(stock, room.drop)
  {
    forall t | t in room.drop ensures Lists(stock, t) {
      assert t in multiset(room.drop);
    }
  }

  /** More than `k` entries of a transaction are dropped exactly if those before it and `k` of its
      own do not free the slots needed. With `k` one: whether both entries of a transaction that
      is listed twice are dropped. */
  lemma DroppedIff(stock: Stock, room: Room, tx: Tx, needed: int, isLocal: bool, t: Tx, k: nat)
    requires HeapsAnswer(stock, room, tx, needed, isLocal) && room.success && OneOrder(stock)
    requires t in stock.remotes && k < stock.listed.Count(t)
    ensures k < multiset(room.drop)[t] <==> SlotsOf(Queue(stock, t, k)) < needed
  {
    AnswerIsFair(stock, room, tx, needed, isLocal);
    assert Lists(stock, t);
    if k < multiset(room.drop)[t] {
      DropsAllAhead(stock, room.drop, t, k);
    } else {
      assert StaysListed(stock, room.drop, t);
      DropsOnlyAhead(stock, room.drop, t, k);
    }
  }

  /** The transactions that have to go for some slots. */
  ghost function Due(stock: Stock, needed: int): set<Tx> {
    set t | t in stock.remotes && stock.listed.Count(t) > 0 && SlotsOf(Queue(stock, t, 0)) < needed
  }

  lemma DropIsDue(stock: Stock, room: Room, tx: Tx, needed: int, isLocal: bool)
    requires HeapsAnswer(stock, room, tx, needed, isLocal) && room.success && OneOrder(stock)
    ensures Elements(room.drop) == Due(stock, needed) <= stock.remotes
  {
    AnswerIsFair(stock, room, tx, needed, isLocal);
    forall t ensures t in Elements(room.drop) <==> t in Due(stock, needed) {
      assert t in room.drop <==> multiset(room.drop)[t] > 0;
      if Lists(stock, t) {
        DroppedIff(stock, room, tx, needed, isLocal, t, 0);
      }
    }
  }

  /** The pool ends within capacity after an offer exactly if some transactions, each counted
      once, and the one replaced take the slots needed. */
  ghost predicate FitsIff(rules: Rules, txs: set<Tx>, s: Submission, gone: set<Tx>) {
    SumSlots(rules.TxsAfter(txs, s)) <= rules.config.Capacity() <==>
      SumSlots(txs) + NumSlots(s.tx) - rules.config.Capacity() <= SumSlots(gone + Rivals(txs - gone, s.tx))
  }

  lemma DueLeaves(rules: Rules, txs: set<Tx>, s: Submission, gone: set<Tx>)
    requires rules.Answer(txs, s).Added? && rules.Overfills(SumSlots(txs), s.tx)
    requires Elements(s.room.drop) == gone <= txs
    ensures FitsIff(rules, txs, s, gone)
  {
    CapacityIff(rules, txs, s);
  }

  /** A transaction taken into a full pool has found room. */
  lemma TakenIsAnswered(rules: Rules, txs: set<Tx>, s: Submission, stock: Stock)
    requires Asks(rules, txs, s) && Asked(rules, txs, s, stock) && rules.Answer(txs, s).Added?
    ensures HeapsAnswer(stock, s.room, s.tx, SumSlots(txs) + NumSlots(s.tx) - rules.config.Capacity(),
                        rules.IsLocal(s.tx.sender))
    ensures s.room.success && rules.Overfills(SumSlots(txs), s.tx)
  {
    RefusedForRoom(rules, s.tx in txs, SumSlots(txs), s);
  }

  /** Whether the pool ends within capacity is told by the heaps before: it is decided by the
      transactions that have to go for the slots needed. */
  lemma CapacityFromStock(rules: Rules, txs: set<Tx>, s: Submission, stock: Stock, needed: int, due: set<Tx>)
    requires needed == SumSlots(txs) + NumSlots(s.tx) - rules.config.Capacity() && due == Due(stock, needed)
    requires Asks(rules, txs, s) && Asked(rules, txs, s, stock) && OneOrder(stock) && stock.remotes <= txs
    requires rules.Answer(txs, s).Added?
    ensures FitsIff(rules, txs, s, due)
  {
    TakenIsAnswered(rules, txs, s, stock);
    DropIsDue(stock, s.room, s.tx, needed, rules.IsLocal(s.tx.sender));
    DueLeaves(rules, txs, s, due);
  }
}
