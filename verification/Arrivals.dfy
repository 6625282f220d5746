/** What becomes of transactions offered to the pool, as a function of what it holds: the
    answer to each, the transactions it makes room by dropping, and every sender's share
    afterwards. */
module Arrivals {
  import opened Transactions
  import opened Lists
  import opened Accounts

  datatype Config = Config(
    priceBump: nat, accountSlots: nat, globalSlots: nat, accountQueue: nat, globalQueue: nat)
  {
    function Capacity(): nat {
      globalSlots + globalQueue
    }
  }

  /** The parts of the chain state at the head block that the pool reads. */
  datatype ChainState = ChainState(nonce: Address -> nat, balance: Address -> nat)

  datatype PoolError =
    | AlreadyKnown | InvalidSender | NonceTooLow | InsufficientFunds | InvalidPayload | GasLimit
    | FeeCapVeryHigh | TipVeryHigh | TipAboveFeeCap | Underpriced | IntrinsicGas | Overflow | ReplaceUnderpriced

  datatype AddResult = Added(replaced: bool) | Rejected(error: PoolError)

  /** The outcome of the checks that read nothing of the pool: on the signature and the kind of
      account, on type, size and business rules, and on the gas that the payload takes. */
  datatype Checks = Checks(sender: bool, payload: bool, intrinsicGas: bool)

  /** What the price heaps answer when there is no room. */
  datatype Room = Room(underpriced: bool, drop: seq<Tx>, success: bool)

  /** A transaction offered to the pool. */
  datatype Submission = Submission(tx: Tx, checks: Checks, room: Room)

  /** What the answer to an offer depends on besides the pooled transactions: the pool's
      settings, its head, its local senders and whether the offer comes from the node itself. */
  datatype Rules = Rules(
    config: Config, state: ChainState, maxGas: nat, gasPrice: nat, locals: set<Address>, local: bool)
  {
    predicate IsLocal(addr: Address) {
      local || addr in locals
    }

    function LimitsOf(addr: Address): Limits {
      Limits(state.nonce(addr), state.balance(addr), maxGas)
    }

    /** The checks on a single transaction, in order. */
    function Validate(s: Submission): Option<PoolError> {
      var tx := s.tx;
      if !s.checks.sender then Some(InvalidSender)
      else if tx.nonce < state.nonce(tx.sender) then Some(NonceTooLow)
      else if state.balance(tx.sender) < tx.cost then Some(InsufficientFunds)
      else if !s.checks.payload then Some(InvalidPayload)
      else if maxGas < tx.gas then Some(GasLimit)
      else if tx.feeCap >= TWO_256 then Some(FeeCapVeryHigh)
      else if tx.tipCap >= TWO_256 then Some(TipVeryHigh)
      else if tx.feeCap < tx.tipCap then Some(TipAboveFeeCap)
      else if !IsLocal(tx.sender) && tx.tipCap < gasPrice then Some(Underpriced)
      else if !s.checks.intrinsicGas then Some(IntrinsicGas)
      else None
    }

    /** Whether a transaction would take a pool with that many slots in use over capacity. */
    predicate Overfills(slots: int, tx: Tx) {
      slots + NumSlots(tx) > config.Capacity()
    }

    /** Why a transaction is turned away before anything is changed for it. */
    function EarlyError(known: bool, slots: int, s: Submission): Option<PoolError> {
      if known then Some(AlreadyKnown)
      else if Validate(s).Some? then Validate(s)
      else if Overfills(slots, s.tx) && !IsLocal(s.tx.sender) && s.room.underpriced then Some(Underpriced)
      else if Overfills(slots, s.tx) && !IsLocal(s.tx.sender) && !s.room.success then Some(Overflow)
      else None
    }

    ghost function Refusal(txs: set<Tx>, s: Submission): Option<PoolError> {
      EarlyError(s.tx in txs, SumSlots(txs), s)
    }

    /** What is dropped to make room. */
    ghost function Evictions(txs: set<Tx>, s: Submission): seq<Tx> {
      if Refusal(txs, s).None? && Overfills(SumSlots(txs), s.tx) then s.room.drop else []
    }

    ghost function Remaining(txs: set<Tx>, s: Submission): set<Tx> {
      txs - Elements(Evictions(txs, s))
    }

    ghost function Answer(txs: set<Tx>, s: Submission): AddResult {
      var error := Refusal(txs, s);
      if error.Some? then Rejected(error.value) else FilingAnswer(Remaining(txs, s), s.tx, config.priceBump)
    }

    ghost function TxsAfter(txs: set<Tx>, s: Submission): set<Tx> {
      if Refusal(txs, s).Some? then txs else FilingLeaves(Remaining(txs, s), s.tx, config.priceBump)
    }

    /** A sender's share after an offer. */
    ghost function ViewAfter(a: Address, v: View, txs: set<Tx>, s: Submission): View {
      var w := LostAll(v, Evictions(txs, s));
      if a == s.tx.sender && Answer(txs, s).Added? then Received(w, s.tx) else w
    }
  }

  // ------------------------------------------------------------------- filing

  /** The pooled transactions that a newcomer would replace. */
  ghost function Rivals(txs: set<Tx>, tx: Tx): set<Tx> {
    set t | t in txs && t.sender == tx.sender && t.nonce == tx.nonce
  }

  /** A newcomer wins against its rivals if it outbids them. */
  ghost predicate Wins(txs: set<Tx>, tx: Tx, priceBump: nat) {
    forall t :: t in Rivals(txs, tx) ==> Outbids(t, tx, priceBump)
  }

  ghost function FilingAnswer(txs: set<Tx>, tx: Tx, priceBump: nat): AddResult {
    if Wins(txs, tx, priceBump) then Added(Rivals(txs, tx) != {}) else Rejected(ReplaceUnderpriced)
  }

  ghost function FilingLeaves(txs: set<Tx>, tx: Tx, priceBump: nat): set<Tx> {
    if Wins(txs, tx, priceBump) then txs - Rivals(txs, tx) + {tx} else txs
  }

  /** The share of the sender of a transaction that has been taken in. */
  function Received(v: View, tx: Tx): View {
    if tx.nonce in v.pending then PutPending(v, tx) else PutQueued(v, tx)
  }

  function Dropped(v: View, tx: Tx): View {
    if tx.nonce in v.pending then DropPending(v, tx.nonce) else DropQueued(v, tx.nonce)
  }

  /** A share after a transaction, whoever's it is, has left the pool. */
  ghost function Lost(v: View, tx: Tx): View {
    if Holds(v, tx) then Dropped(v, tx) else v
  }

  ghost function LostAll(v: View, drop: seq<Tx>): View {
    if drop == [] then v else Lost(LostAll(v, drop[..|drop| - 1]), drop[|drop| - 1])
  }

  // ------------------------------------------------------------------ batches

  ghost function TxsAfterAll(rules: Rules, txs: set<Tx>, batch: seq<Submission>): set<Tx> {
    if batch == [] then txs
    else rules.TxsAfter(TxsAfterAll(rules, txs, batch[..|batch| - 1]), batch[|batch| - 1])
  }

  ghost function Answers(rules: Rules, txs: set<Tx>, batch: seq<Submission>): seq<AddResult> {
    if batch == [] then [] else
      var init := batch[..|batch| - 1];
      Answers(rules, txs, init) + [rules.Answer(TxsAfterAll(rules, txs, init), batch[|batch| - 1])]
  }

  /** Everything that a batch makes the pool drop. */
  ghost function EvictedBy(rules: Rules, txs: set<Tx>, batch: seq<Submission>): set<Tx> {
    if batch == [] then {} else
      var init := batch[..|batch| - 1];
      EvictedBy(rules, txs, init) + Elements(rules.Evictions(TxsAfterAll(rules, txs, init), batch[|batch| - 1]))
  }

  /** The senders of transactions that were added without replacing another. */
  function Dirtied(answers: seq<AddResult>, batch: seq<Submission>): set<Address>
    requires |answers| <= |batch|
  {
    set i | 0 <= i < |answers| && answers[i] == Added(false) :: batch[i].tx.sender
  }

  lemma NextDirtied(answers: seq<AddResult>, r: AddResult, batch: seq<Submission>)
    requires |answers| < |batch|
    ensures Dirtied(answers + [r], batch) ==
      Dirtied(answers, batch) + (if r == Added(false) then {batch[|answers|].tx.sender} else {})
  {
  }

  ghost function ViewAfterAll(a: Address, v: View, rules: Rules, txs: set<Tx>, batch: seq<Submission>): View {
    if batch == [] then v else
      var init := batch[..|batch| - 1];
      rules.ViewAfter(a, ViewAfterAll(a, v, rules, txs, init), TxsAfterAll(rules, txs, init), batch[|batch| - 1])
  }

  lemma NextAfterAll(rules: Rules, txs: set<Tx>, batch: seq<Submission>, i: nat)
    requires i < |batch|
    ensures
      var now := TxsAfterAll(rules, txs, batch[..i]);
      && TxsAfterAll(rules, txs, batch[..i + 1]) == rules.TxsAfter(now, batch[i])
      && Answers(rules, txs, batch[..i + 1]) == Answers(rules, txs, batch[..i]) + [rules.Answer(now, batch[i])]
  {
    assert batch[..i + 1][..i] == batch[..i];
  }

  /** The answers to the first transactions of a batch, and the senders these made dirty. */
  ghost predicate Tallied(rules: Rules, txs: set<Tx>, batch: seq<Submission>, i: nat, answers: seq<AddResult>,
                          dirty: set<Address>) {
    && i <= |batch| && |answers| == i
    && answers == Answers(rules, txs, batch[..i]) && dirty == Dirtied(answers, batch)
  }

  lemma TalliedNext(rules: Rules, txs: set<Tx>, batch: seq<Submission>, i: nat, answers: seq<AddResult>,
                    dirty: set<Address>)
    requires i < |batch| && Tallied(rules, txs, batch, i, answers, dirty)
    ensures
      var r := rules.Answer(TxsAfterAll(rules, txs, batch[..i]), batch[i]);
      && Tallied(rules, txs, batch, i + 1, answers + [r],
                 dirty + if r == Added(false) then {batch[i].tx.sender} else {})
      && batch[..i + 1] == batch[..i] + [batch[i]]
  {
    NextAfterAll(rules, txs, batch, i);
    NextDirtied(answers, rules.Answer(TxsAfterAll(rules, txs, batch[..i]), batch[i]), batch);
  }

  /** A transaction with nothing against it but the lack of room. */
  predicate Admissible(rules: Rules, known: bool, slots: int, tx: Tx, checks: Checks) {
    rules.EarlyError(known, slots, Submission(tx, checks, Room(false, [], true))) == None
  }

  lemma RefusedForRoom(rules: Rules, known: bool, slots: int, s: Submission)
    ensures rules.EarlyError(known, slots, s) == None <==>
      Admissible(rules, known, slots, s.tx, s.checks)
      && (rules.Overfills(slots, s.tx) && !rules.IsLocal(s.tx.sender) ==> !s.room.underpriced && s.room.success)
  {
  }

  /** To offers from the node itself it does not matter which senders are local. */
  lemma LocalsAside(rules: Rules, locals: set<Address>, txs: set<Tx>, s: Submission)
    requires rules.local || locals == rules.locals
    ensures
      var other := rules.(locals := locals);
      && other.Answer(txs, s) == rules.Answer(txs, s)
      && other.TxsAfter(txs, s) == rules.TxsAfter(txs, s)
      && other.Evictions(txs, s) == rules.Evictions(txs, s)
  {
  }

  lemma LocalsAsideView(a: Address, v: View, rules: Rules, locals: set<Address>, txs: set<Tx>, s: Submission)
    requires rules.local || locals == rules.locals
    ensures rules.(locals := locals).ViewAfter(a, v, txs, s) == rules.ViewAfter(a, v, txs, s)
  {
  }

  /** A batch from the node itself is answered the same whoever is local. */
  lemma {:induction false} LocalsAsideAll(rules: Rules, locals: set<Address>, txs: set<Tx>, batch: seq<Submission>)
    requires rules.local
    ensures
      var other := rules.(locals := locals);
      && Answers(other, txs, batch) == Answers(rules, txs, batch)
      && TxsAfterAll(other, txs, batch) == TxsAfterAll(rules, txs, batch)
      && EvictedBy(other, txs, batch) == EvictedBy(rules, txs, batch)
    decreases |batch|
  {
    if batch != [] {
      var init := batch[..|batch| - 1];
      LocalsAsideAll(rules, locals, txs, init);
      LocalsAside(rules, locals, TxsAfterAll(rules, txs, init), batch[|batch| - 1]);
    }
  }

  /** What leaves the pool for a newcomer that is taken: each dropped transaction, however often
      it is dropped, and the one replaced. */
  ghost function Leaving(rules: Rules, txs: set<Tx>, s: Submission): set<Tx> {
    Elements(rules.Evictions(txs, s)) + Rivals(rules.Remaining(txs, s), s.tx)
  }

  /** The pool ends within capacity exactly if what leaves it takes the slots needed. */
  lemma CapacityIff(rules: Rules, txs: set<Tx>, s: Submission)
    requires rules.Answer(txs, s).Added? && Elements(rules.Evictions(txs, s)) <= txs
    ensures SumSlots(rules.TxsAfter(txs, s)) <= rules.config.Capacity() <==>
      SumSlots(txs) + NumSlots(s.tx) - rules.config.Capacity() <= SumSlots(Leaving(rules, txs, s))
  {
    var gone, tx := Leaving(rules, txs, s), s.tx;
    assert gone <= txs && rules.TxsAfter(txs, s) == (txs - gone) + {tx};
    SumSlotsMinus(txs, gone);
    SumSlotsUnion(txs - gone, {tx});
    SumSlotsRemove({tx}, tx);
    assert {tx} - {tx} == {};
  }

  /** Once enough of the pool is dropped for a newcomer, it ends within capacity. */
  lemma WithinCapacity(rules: Rules, txs: set<Tx>, s: Submission)
    requires rules.Answer(txs, s).Added?
    requires rules.Overfills(SumSlots(txs), s.tx) ==>
      MakesRoom(s.room.drop, txs, SumSlots(txs) + NumSlots(s.tx) - rules.config.Capacity())
    ensures SumSlots(rules.TxsAfter(txs, s)) <= rules.config.Capacity()
  {
    CapacityIff(rules, txs, s);
    SlotsOfDistinct(rules.Evictions(txs, s));
    SumSlotsUnion(Elements(rules.Evictions(txs, s)), Rivals(rules.Remaining(txs, s), s.tx));
  }

  /** The dropped transactions are distinct, pooled, and take enough slots. */
  ghost predicate MakesRoom(drop: seq<Tx>, txs: set<Tx>, needed: int) {
    Distinct(drop) && Elements(drop) <= txs && needed <= SlotsOf(drop)
  }

  lemma SlotsAfter(txs: set<Tx>, gone: set<Tx>, added: set<Tx>)
    requires gone <= txs && added !! txs
    ensures SumSlots(txs - gone + added) <= SumSlots(txs) + SumSlots(added)
  {
    SumSlotsMinus(txs, gone);
    SumSlotsUnion(txs - gone, added);
  }

  // --------------------------------------------------- what offers preserve

  /** Both lists are filed by nonce, and no nonce is in both. */
  ghost predicate Sound(v: View) {
    Separate(v) && Keyed(v.pending) && Keyed(v.queued)
  }

  lemma LostKeeps(v: View, e: Limits, tx: Tx)
    requires Sound(v)
    ensures Sound(Lost(v, tx)) && Keeps(v, Lost(v, tx), e)
  {
    if Holds(v, tx) {
      if tx.nonce in v.pending {
        DropPendingKeeps(v, e, tx.nonce);
      } else {
        DropQueuedKeeps(v, e, tx.nonce);
      }
    }
  }

  lemma {:induction false} LostAllKeeps(v: View, e: Limits, drop: seq<Tx>)
    requires Sound(v)
    ensures Sound(LostAll(v, drop)) && Keeps(v, LostAll(v, drop), e)
    decreases |drop|
  {
    if drop != [] {
      var init, last := drop[..|drop| - 1], drop[|drop| - 1];
      LostAllKeeps(v, e, init);
      LostKeeps(LostAll(v, init), e, last);
      KeepsTransitive(v, LostAll(v, init), LostAll(v, drop), e);
    }
  }

  lemma ReceivedKeeps(v: View, e: Limits, tx: Tx)
    requires Sound(v) && e.nonce <= tx.nonce && e.Covers(tx)
    ensures Sound(Received(v, tx)) && Keeps(v, Received(v, tx), e)
  {
    if tx.nonce in v.pending {
      PutPendingKeeps(v, e, tx);
    } else {
      PutQueuedKeeps(v, e, tx);
    }
  }

  /** Whatever is offered, no sender's share loses what it had. */
  lemma OfferKeeps(a: Address, v: View, rules: Rules, txs: set<Tx>, s: Submission)
    requires Sound(v)
    ensures Sound(rules.ViewAfter(a, v, txs, s)) && Keeps(v, rules.ViewAfter(a, v, txs, s), rules.LimitsOf(a))
  {
    var drop := rules.Evictions(txs, s);
    LostAllKeeps(v, rules.LimitsOf(a), drop);
    if a == s.tx.sender && rules.Answer(txs, s).Added? {
      ReceivedKeeps(LostAll(v, drop), rules.LimitsOf(a), s.tx);
      KeepsTransitive(v, LostAll(v, drop), rules.ViewAfter(a, v, txs, s), rules.LimitsOf(a));
    }
  }

  lemma {:induction false} BatchKeeps(a: Address, v: View, rules: Rules, txs: set<Tx>, batch: seq<Submission>)
    requires Sound(v)
    ensures Sound(ViewAfterAll(a, v, rules, txs, batch))
    ensures Keeps(v, ViewAfterAll(a, v, rules, txs, batch), rules.LimitsOf(a))
    decreases |batch|
  {
    if batch != [] {
      var init, last := batch[..|batch| - 1], batch[|batch| - 1];
      BatchKeeps(a, v, rules, txs, init);
      var u := ViewAfterAll(a, v, rules, txs, init);
      OfferKeeps(a, u, rules, TxsAfterAll(rules, txs, init), last);
      KeepsTransitive(v, u, ViewAfterAll(a, v, rules, txs, batch), rules.LimitsOf(a));
    }
  }

  // ------------------------------------------------- when the virtual nonce sinks

  /** One of the given transactions is pending below a nonce. */
  ghost predicate Hits(gone: set<Tx>, pending: Items, nonce: nat) {
    exists n :: n in pending && n < nonce && pending[n] in gone
  }

  /** From `v` to `w` the transactions `gone` were dropped: the virtual nonce has sunk if one
      of them was pending below the chain nonce, and stands otherwise. */
  ghost predicate Sinks(v: View, w: View, e: Limits, gone: set<Tx>) {
    && w.nonce <= v.nonce
    && (Sunken(v, e) ==> Sunken(w, e))
    && (Floored(v, e) ==>
          if Hits(gone, v.pending, e.nonce) then Sunken(w, e)
          else Floored(w, e) && Below(w.pending, e.nonce) == Below(v.pending, e.nonce))
  }

  lemma SinksTransitive(u: View, v: View, w: View, e: Limits, gone: set<Tx>, more: set<Tx>)
    requires Sinks(u, v, e, gone) && Sinks(v, w, e, more)
    ensures Sinks(u, w, e, gone + more)
  {
    if Floored(u, e) && !Hits(gone, u.pending, e.nonce) {
      SameHits(more, u.pending, v.pending, e.nonce);
      SameHits(more, v.pending, u.pending, e.nonce);
    }
  }

  lemma SameHits(gone: set<Tx>, was: Items, now: Items, nonce: nat)
    requires Below(was, nonce) == Below(now, nonce)
    ensures Hits(gone, was, nonce) ==> Hits(gone, now, nonce)
  {
    if Hits(gone, was, nonce) {
      var n :| n in was && n < nonce && was[n] in gone;
      assert n in Below(was, nonce) && Below(now, nonce)[n] == was[n];
      assert n in now && now[n] in gone;
    }
  }

  lemma LostSinks(v: View, e: Limits, tx: Tx)
    requires Sound(v)
    ensures Sinks(v, Lost(v, tx), e, {tx})
  {
  }

  lemma {:induction false} LostAllSinks(v: View, e: Limits, drop: seq<Tx>)
    requires Sound(v)
    ensures Sinks(v, LostAll(v, drop), e, Elements(drop))
    decreases |drop|
  {
    if drop != [] {
      var init, last := drop[..|drop| - 1], drop[|drop| - 1];
      LostAllKeeps(v, e, init);
      LostAllSinks(v, e, init);
      LostSinks(LostAll(v, init), e, last);
      SinksTransitive(v, LostAll(v, init), LostAll(v, drop), e, Elements(init), {last});
      assert drop == init + [last];
      assert Elements(drop) == Elements(init) + {last};
    }
  }

  lemma OfferSinks(a: Address, v: View, rules: Rules, txs: set<Tx>, s: Submission)
    requires Sound(v)
    ensures Sinks(v, rules.ViewAfter(a, v, txs, s), rules.LimitsOf(a), Elements(rules.Evictions(txs, s)))
  {
    var e, drop := rules.LimitsOf(a), rules.Evictions(txs, s);
    var w := LostAll(v, drop);
    LostAllSinks(v, e, drop);
    if a == s.tx.sender && rules.Answer(txs, s).Added? {
      assert Below(Received(w, s.tx).pending, e.nonce) == Below(w.pending, e.nonce);
      assert Elements(drop) + {} == Elements(drop);
      SinksTransitive(v, w, Received(w, s.tx), e, Elements(drop), {});
    }
  }

  /** A batch makes a sender's virtual nonce sink below its chain nonce exactly if it makes the
      pool drop a transaction of the sender that is pending below the chain nonce. */
  lemma {:induction false} BatchSinks(a: Address, v: View, rules: Rules, txs: set<Tx>, batch: seq<Submission>)
    requires Sound(v)
    ensures Sinks(v, ViewAfterAll(a, v, rules, txs, batch), rules.LimitsOf(a), EvictedBy(rules, txs, batch))
    decreases |batch|
  {
    if batch != [] {
      var init, last := batch[..|batch| - 1], batch[|batch| - 1];
      var u, now := ViewAfterAll(a, v, rules, txs, init), TxsAfterAll(rules, txs, init);
      BatchKeeps(a, v, rules, txs, init);
      BatchSinks(a, v, rules, txs, init);
      OfferSinks(a, u, rules, now, last);
      SinksTransitive(v, u, ViewAfterAll(a, v, rules, txs, batch), rules.LimitsOf(a),
                      EvictedBy(rules, txs, init), Elements(rules.Evictions(now, last)));
    }
  }

  /** A sender at a new head, once the transactions dropped by its reorganisation have been
      put back: its virtual nonce has sunk if one of its used up transactions had to make
      room, and is the chain nonce otherwise. */
  lemma PutBack(a: Address, v: View, e: Limits, rules: Rules, txs: set<Tx>, batch: seq<Submission>)
    requires Sound(v) && Steady(v, e, rules.LimitsOf(a))
    ensures
      var e' := rules.LimitsOf(a);
      var w := ViewAfterAll(a, v.(nonce := e'.nonce), rules, txs, batch);
      Poised(w, e', Overhaul, !Hits(EvictedBy(rules, txs, batch), v.pending, e'.nonce))
  {
    var e' := rules.LimitsOf(a);
    HeadChange(v, e, e');
    BatchKeeps(a, v.(nonce := e'.nonce), rules, txs, batch);
    BatchSinks(a, v.(nonce := e'.nonce), rules, txs, batch);
  }

  /** The transactions of a batch. */
  function TxsOf(batch: seq<Submission>): seq<Tx> {
    seq(|batch|, i requires 0 <= i < |batch| => batch[i].tx)
  }

  lemma OfferFits(rules: Rules, txs: set<Tx>, s: Submission)
    requires SumSlots(txs) + NumSlots(s.tx) <= rules.config.Capacity()
    ensures rules.Evictions(txs, s) == []
    ensures SumSlots(rules.TxsAfter(txs, s)) <= SumSlots(txs) + NumSlots(s.tx)
  {
    assert rules.Remaining(txs, s) == txs;
    if rules.Answer(txs, s).Added? {
      SlotsAfter(txs, Rivals(txs, s.tx), {s.tx});
      SumSlotsRemove({s.tx}, s.tx);
      assert {s.tx} - {s.tx} == {};
    }
  }

  /** A batch for which there is room from the start makes the pool drop nothing. */
  lemma {:induction false} BatchFits(rules: Rules, txs: set<Tx>, batch: seq<Submission>)
    requires SumSlots(txs) + SlotsOf(TxsOf(batch)) <= rules.config.Capacity()
    ensures EvictedBy(rules, txs, batch) == {}
    ensures SumSlots(TxsAfterAll(rules, txs, batch)) <= SumSlots(txs) + SlotsOf(TxsOf(batch))
    decreases |batch|
  {
    if batch != [] {
      var init, last := batch[..|batch| - 1], batch[|batch| - 1];
      assert TxsOf(batch)[..|batch| - 1] == TxsOf(init);
      BatchFits(rules, txs, init);
      OfferFits(rules, TxsAfterAll(rules, txs, init), last);
    }
  }

  /** A batch that has no need of room makes the pool drop nothing. */
  lemma {:induction false} NothingEvicted(rules: Rules, txs: set<Tx>, batch: seq<Submission>)
    requires forall i :: 0 <= i < |batch| ==> batch[i].room.drop == []
    ensures EvictedBy(rules, txs, batch) == {}
    decreases |batch|
  {
    if batch != [] {
      NothingEvicted(rules, txs, batch[..|batch| - 1]);
    }
  }
}
