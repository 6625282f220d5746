/** One sender's share of the pool and what each pool operation does to it. */
module Accounts {
  import opened Transactions
  import opened Lists

  /** A sender's pending and queued transactions and its virtual nonce. */
  datatype View = View(pending: Items, queued: Items, nonce: nat)

  /** What the chain head says about the sender. */
  datatype Limits = Limits(nonce: nat, balance: nat, maxGas: nat) {
    predicate Covers(tx: Tx) {
      Payable(tx, balance, maxGas)
    }
  }

  ghost predicate Separate(v: View) {
    forall n :: n in v.pending ==> n !in v.queued
  }

  ghost predicate Holds(v: View, tx: Tx) {
    || (tx.nonce in v.pending && v.pending[tx.nonce] == tx)
    || (tx.nonce in v.queued && v.queued[tx.nonce] == tx)
  }

  /** Pending nonces are exactly those from the chain nonce up to the virtual
      nonce, every pending transaction can be paid for, and everything queued
      lies at or above both nonces. */
  ghost predicate Settled(v: View, e: Limits) {
    && (forall n :: n in v.pending <==> e.nonce <= n < v.nonce)
    && (forall n :: n in v.pending ==> e.Covers(v.pending[n]))
    && (forall n :: n in v.queued ==> e.nonce <= n && v.nonce <= n)
  }

  /** What is known while the pool is between two settled states: pending has
      no gap above the chain nonce, the queue lies above it, and the virtual
      nonce does not run ahead of what is pending and can be paid for. */
  ghost predicate Settling(v: View, e: Limits) {
    && (forall i, n :: e.nonce <= i < n && n in v.pending ==> i in v.pending)
    && (forall i, n :: i in v.pending && n in v.queued && e.nonce <= n ==> i < n)
    && (e.nonce < v.nonce ==>
          && v.nonce - 1 in v.pending
          && forall n :: n in v.pending && e.nonce <= n ==> e.Covers(v.pending[n]))
  }

  /** Nothing below the chain nonce is left, and nothing pending is unpayable. */
  ghost predicate Clean(v: View, e: Limits) {
    && (forall n :: n in v.pending ==> e.nonce <= n && e.Covers(v.pending[n]))
    && (forall n :: n in v.queued ==> e.nonce <= n)
  }

  /** Nothing queued lies below the chain nonce. */
  ghost predicate Fresh(v: View, e: Limits) {
    forall n :: n in v.queued ==> e.nonce <= n
  }

  /** Going from `v` to `w` loses none of the properties of an unsettled account. */
  ghost predicate Advances(v: View, w: View, e: Limits) {
    && (Settling(v, e) ==> Settling(w, e))
    && (Clean(v, e) ==> Clean(w, e))
    && (Clean(v, e) && Floored(v, e) ==> Floored(w, e))
    && (Sunken(v, e) ==> Sunken(w, e))
  }

  /** The virtual nonce is not below the chain nonce. */
  ghost predicate Floored(v: View, e: Limits) {
    e.nonce <= v.nonce
  }

  /** The virtual nonce is below the chain nonce, and nothing executable is pending. */
  ghost predicate Sunken(v: View, e: Limits) {
    v.nonce < e.nonce && forall n :: n in v.pending ==> n < e.nonce
  }

  function Min(a: nat, b: nat): nat {
    if a < b then a else b
  }

  // ---------------------------------------------------------------- operations

  /** Dropping pending transaction `n` sends everything above it back to the queue. */
  function DropPending(v: View, n: nat): View {
    View(Below(v.pending, n), v.queued + From(v.pending, n + 1), Min(v.nonce, n))
  }

  function DropQueued(v: View, n: nat): View {
    v.(queued := v.queued - {n})
  }

  function PutPending(v: View, tx: Tx): View {
    v.(pending := With(v.pending, tx))
  }

  function PutQueued(v: View, tx: Tx): View {
    v.(queued := With(v.queued, tx))
  }

  /** Queued transactions that survive the nonce and balance checks. */
  function Usable(v: View, e: Limits): Items {
    KeepPayable(From(v.queued, e.nonce), e.balance, e.maxGas)
  }

  /** The view with a run of transactions added to pending. */
  ghost function WithRun(v: View, run: Items): View {
    v.(pending := v.pending + run, nonce := if run == map[] then v.nonce else Highest(run) + 1)
  }

  /** The view with a run moved from the queue to pending. */
  ghost function Moved(v: View, run: Items): View {
    WithRun(v.(queued := Without(v.queued, run)), run)
  }

  /** Moves the executable run out of the queue. */
  ghost function Promoted(v: View, e: Limits): View {
    Moved(v.(queued := Usable(v, e)), ReadyRun(Usable(v, e), v.nonce))
  }

  datatype Limit = Unlimited | AtMost(count: nat)

  ghost predicate LeftUnder(limit: Limit, m: Items, kept: Items) {
    if limit.Unlimited? then kept == m else IsCapped(m, limit.count, kept)
  }

  /** `w` is what promoting the account leaves, with its queue cut to the limit. */
  ghost predicate IsPromotion(v: View, e: Limits, limit: Limit, w: View) {
    var full := Promoted(v, e);
    w == full.(queued := w.queued) && LeftUnder(limit, full.queued, w.queued)
  }

  /** Re-checks the pending list against the chain head. */
  function Demoted(v: View, e: Limits): View {
    var current := From(v.pending, e.nonce);
    var kept := PayablePrefix(current, e.balance, e.maxGas);
    var invalid := Without(KeepPayable(current, e.balance, e.maxGas), kept);
    if kept != map[] && e.nonce !in kept
    then View(map[], v.queued + invalid + kept, v.nonce)
    else View(kept, v.queued + invalid, v.nonce)
  }

  /** The virtual nonce after a run: one above the highest pending nonce. */
  ghost function Finished(v: View): View {
    if v.pending == map[] then v else v.(nonce := Highest(v.pending) + 1)
  }

  // ---------------------------------------------- what the operations preserve

  lemma SettledIsSettling(v: View, e: Limits)
    requires Settled(v, e)
    ensures Settling(v, e) && Clean(v, e) && Separate(v)
    ensures Sunken(v, e) <==> !Floored(v, e)
  {
  }

  /** A new chain head that lowers no nonce leaves every account settling. */
  lemma HeadChange(v: View, e: Limits, e': Limits)
    requires Settled(v, e)
    requires e.nonce <= e'.nonce
    ensures Settling(v.(nonce := e'.nonce), e')
  {
  }

  lemma DemotedClean(v: View, e: Limits)
    requires Separate(v)
    ensures Separate(Demoted(v, e))
    ensures Fresh(v, e) ==> Clean(Demoted(v, e), e)
  {
  }

  /** The pending transactions that survive are a gapless front part. */
  lemma KeptShape(v: View, e: Limits)
    requires forall i, n :: e.nonce <= i < n && n in v.pending ==> i in v.pending
    ensures
      var current := From(v.pending, e.nonce);
      var kept := PayablePrefix(current, e.balance, e.maxGas);
      && (forall i, n :: e.nonce <= i < n && n in kept ==> i in kept)
      && (forall i, n :: i in kept && n in current && n !in kept ==> i < n)
      && ((forall n :: n in current ==> e.Covers(current[n])) ==> kept == current)
  {
  }

  /** Re-checking pending keeps it free of gaps. */
  lemma DemotedSettling(v: View, e: Limits)
    requires Separate(v)
    requires Settling(v, e)
    ensures Settling(Demoted(v, e), e)
  {
    KeptShape(v, e);
    var current := From(v.pending, e.nonce);
    var kept := PayablePrefix(current, e.balance, e.maxGas);
    assert kept != map[] ==> e.nonce in kept by {
      assert forall n :: n in kept ==> n == e.nonce || e.nonce in kept;
    }
    var w := Demoted(v, e);
    assert w.pending == kept;
    assert forall n :: n in w.queued ==> n in v.queued || (n in current && n !in kept);
  }

  /** What re-checking a pending list achieves. */
  ghost predicate Rechecked(v: View, w: View, e: Limits) {
    && (Settling(v, e) ==> Settling(w, e))
    && (Fresh(v, e) ==> Clean(w, e))
    && (Floored(v, e) ==> Floored(w, e))
    && (Sunken(v, e) ==> Sunken(w, e))
  }

  lemma DemotedNothing(v: View, e: Limits)
    requires v.pending == map[]
    ensures Demoted(v, e) == v
  {
  }

  lemma DemotedRechecked(v: View, e: Limits)
    requires Separate(v)
    ensures Rechecked(v, Demoted(v, e), e)
  {
    DemotedClean(v, e);
    if Settling(v, e) {
      DemotedSettling(v, e);
    }
  }

  /** A run is executable only if it continues the pending transactions. */
  lemma RunContinuesPending(v: View, e: Limits)
    requires Settling(v, e)
    ensures
      var usable := Usable(v, e);
      usable != map[] && Lowest(usable) <= v.nonce ==>
        && (forall n :: n in v.pending ==> n < Lowest(usable))
        && (forall n :: e.nonce <= n < Lowest(usable) ==> n in v.pending)
        && (forall n :: n in v.pending && e.nonce <= n ==> e.Covers(v.pending[n]))
  {
  }

  /** A run that continues what is pending leaves the account settling. */
  lemma RunJoined(v: View, w: View, e: Limits, low: nat, top: nat)
    requires low <= top && w.nonce == top + 1 && forall n :: e.nonce <= n < low ==> n in v.pending
    requires forall n :: n in w.pending <==> n in v.pending || low <= n <= top
    requires forall n :: n in v.pending ==> n < low
    requires forall n :: n in w.pending && e.nonce <= n ==> e.Covers(w.pending[n])
    requires forall n :: n in w.queued ==> top < n
    ensures Settling(w, e)
  {
  }

  lemma PromotedSettling(v: View, e: Limits)
    requires Separate(v)
    requires Settling(v, e)
    ensures Settling(Promoted(v, e), e)
  {
    var usable := Usable(v, e);
    var run := ReadyRun(usable, v.nonce);
    if run != map[] {
      RunContinuesPending(v, e);
      ReadyRunShape(usable, v.nonce);
      var low, top := Lowest(usable), Highest(run);
      var w := Promoted(v, e);
      assert forall n :: n in w.pending <==> n in v.pending || low <= n <= top;
      assert forall n :: n in w.queued ==> top < n;
      assert forall n :: n in run ==> e.Covers(w.pending[n]);
      RunJoined(v, w, e, low, top);
    }
  }

  lemma PromotedFresh(v: View, e: Limits)
    requires Separate(v)
    ensures Separate(Promoted(v, e)) && Fresh(Promoted(v, e), e)
    ensures Clean(v, e) ==> Clean(Promoted(v, e), e)
    ensures Floored(v, e) ==> Floored(Promoted(v, e), e)
    ensures Sunken(v, e) ==> Sunken(Promoted(v, e), e)
  {
  }

  lemma FewerQueued(v: View, w: View, e: Limits)
    requires w == v.(queued := w.queued)
    requires forall n :: n in w.queued ==> n in v.queued
    ensures Advances(v, w, e)
    ensures Fresh(v, e) ==> Fresh(w, e)
  {
  }

  lemma PromotionAdvances(v: View, e: Limits, limit: Limit, w: View)
    requires Separate(v)
    requires IsPromotion(v, e, limit, w)
    ensures Advances(v, w, e) && Fresh(w, e)
    ensures Floored(v, e) ==> Floored(w, e)
  {
    PromotedFresh(v, e);
    FewerQueued(Promoted(v, e), w, e);
    if Settling(v, e) {
      PromotedSettling(v, e);
    }
  }

  /** Nothing queued is executable: no queued transaction continues the pending ones or,
      where none is pending, stands at the chain nonce. */
  ghost predicate Idle(v: View, e: Limits) {
    && (forall n :: n in v.pending ==> n + 1 !in v.queued)
    && (v.pending == map[] ==> e.nonce !in v.queued)
  }

  lemma RunIsMaximal(m: Items, start: nat)
    requires ReadyRun(m, start) != map[]
    ensures Highest(ReadyRun(m, start)) + 1 !in m
  {
    var run := ReadyRun(m, start);
    ReadyRunShape(m, start);
    var next := Highest(run) + 1;
    assert next in m ==> next in run;
  }

  lemma PromotedIdle(v: View, e: Limits)
    requires Settled(v, e) && Floored(v, e)
    ensures Idle(Promoted(v, e), e)
  {
    var usable := Usable(v, e);
    var run := ReadyRun(usable, v.nonce);
    if run == map[] {
      ReadyRunStarts(usable, v.nonce);
    } else {
      ReadyRunShape(usable, v.nonce);
      RunIsMaximal(usable, v.nonce);
      assert Lowest(usable) == v.nonce;
    }
  }

  lemma FewerQueuedIdle(v: View, w: View, e: Limits)
    requires w == v.(queued := w.queued)
    requires forall n :: n in w.queued ==> n in v.queued
    ensures Idle(v, e) ==> Idle(w, e)
  {
  }

  lemma PromotionIdle(v: View, e: Limits, limit: Limit, w: View)
    requires Settled(v, e) && Floored(v, e)
    requires IsPromotion(v, e, limit, w)
    ensures Idle(w, e)
  {
    PromotedIdle(v, e);
    FewerQueuedIdle(Promoted(v, e), w, e);
  }

  /** Without a queue there is nothing to promote. */
  lemma PromotedNothing(v: View, e: Limits, limit: Limit)
    requires v.queued == map[]
    ensures IsPromotion(v, e, limit, v) && Promoted(v, e) == v
  {
  }

  /** `w` has kept the lowest pending nonces of `v`, and its virtual nonce has
      come down to the lowest nonce it lost. */
  ghost predicate TrimmedTo(v: View, w: View) {
    && w.queued == v.queued
    && Within(w.pending, v.pending)
    && (forall i, n :: i in w.pending && n in v.pending && n !in w.pending ==> i < n)
    && (forall n :: n in v.pending && n !in w.pending ==> w.nonce <= n)
    && w.nonce <= v.nonce
    && (w.nonce == v.nonce || (w.nonce in v.pending && w.nonce !in w.pending))
  }

  ghost predicate TrimmedOne(v: View, w: View) {
    TrimmedTo(v, w) && |w.pending| == |v.pending| - 1
  }

  /** A sender that is being cut has gone from `level` pending transactions to
      `lower`; any other sender is untouched. */
  ghost predicate LevelledFrom(v: View, w: View, cut: bool, level: nat, lower: nat) {
    if cut then TrimmedTo(v, w) && |w.pending| == lower && (lower == level ==> w == v) else w == v
  }

  lemma TrimmedIs(v: View, top: nat, w: View)
    requires IsHighest(v.pending, top)
    requires w == View(Without(v.pending, map[top := v.pending[top]]), v.queued, Min(v.nonce, top))
    ensures TrimmedOne(v, w)
  {
    assert w.pending == v.pending - {top};
  }

  lemma LevelledStep(u: View, v: View, w: View, cut: bool, level: nat, lower: nat)
    requires lower < level
    requires LevelledFrom(u, v, cut, level, lower + 1)
    requires if cut then TrimmedOne(v, w) else w == v
    ensures LevelledFrom(u, w, cut, level, lower)
  {
  }

  /** A remote sender is cut down to `level` pending transactions if it had more;
      a local one is never touched. */
  ghost predicate Cropped(v: View, w: View, local: bool, level: nat) {
    if local || |v.pending| <= level then w == v
    else TrimmedTo(v, w) && |w.pending| == level
  }

  /** A sender's role while pending transactions are being cut. */
  datatype Role = Untouchable | Small | Waiting(priority: nat) | Offender

  /** How a sender stands while senders are cut to a common level; `over` says
      that the pool is still above its limit. */
  ghost predicate Standing(v: View, w: View, role: Role, slots: nat, level: nat, over: bool) {
    && Cropped(v, w, role.Untouchable?, level)
    && (role.Small? ==> |v.pending| <= slots)
    && (role.Waiting? ==> |v.pending| == role.priority && slots < role.priority <= level)
    && (role.Offender? ==> slots < |v.pending| && (over ==> |w.pending| == level && level <= |v.pending|))
  }

  /** Cutting all offenders leaves every sender in good standing at the lower level. */
  lemma StandingStep(u: View, v: View, w: View, role: Role, slots: nat, level: nat, lower: nat, over: bool)
    requires Standing(u, v, role, slots, level, true)
    requires LevelledFrom(v, w, role.Offender?, level, lower)
    requires slots <= lower <= level
    requires role.Waiting? ==> role.priority <= lower
    ensures Standing(u, w, role, slots, lower, over)
  {
  }

  lemma TrimmedAdvances(v: View, w: View, e: Limits)
    requires TrimmedTo(v, w)
    ensures Advances(v, w, e)
  {
  }

  /** What trimming does to an account that is about to be settled. */
  ghost predicate Winds(v: View, w: View, e: Limits) {
    && Advances(v, w, e)
    && (Settling(v, e) && Clean(v, e) && Idle(v, e) ==> Idle(w, e))
  }

  lemma WindsTransitive(u: View, v: View, w: View, e: Limits)
    ensures Winds(u, v, e) && Winds(v, w, e) ==> Winds(u, w, e)
  {
  }

  lemma CroppedWinds(v: View, w: View, local: bool, level: nat, e: Limits)
    requires Cropped(v, w, local, level) && Separate(v)
    ensures Winds(v, w, e)
    ensures !local ==> |w.pending| <= level
  {
    if w != v {
      TrimmedAdvances(v, w, e);
      if Settling(v, e) && Clean(v, e) {
        TrimmedIdle(v, w, e);
      }
    }
  }

  lemma TrimmedIdle(v: View, w: View, e: Limits)
    requires TrimmedTo(v, w)
    requires Settling(v, e) && Clean(v, e) && Separate(v)
    ensures Idle(v, e) ==> Idle(w, e)
  {
  }

  /** `w` has lost some of the highest queued nonces and nothing else changed. */
  ghost predicate QueueCut(v: View, w: View) {
    && w == v.(queued := w.queued)
    && Within(w.queued, v.queued)
    && forall i, n :: i in w.queued && n in v.queued && n !in w.queued ==> i < n
  }

  lemma QueueCutStep(u: View, v: View, w: View, top: nat)
    requires QueueCut(u, v)
    requires IsHighest(v.queued, top)
    requires w == DropQueued(v, top)
    ensures QueueCut(u, w) && |w.queued| == |v.queued| - 1
  {
    assert QueueCut(v, w) by {
      assert forall n :: n in v.queued && n !in w.queued ==> n == top;
    }
    QueueCutTransitive(u, v, w);
  }

  lemma QueueCutTransitive(u: View, v: View, w: View)
    requires QueueCut(u, v) && QueueCut(v, w)
    ensures QueueCut(u, w)
  {
  }

  lemma QueueCutWinds(v: View, w: View, e: Limits)
    ensures QueueCut(v, w) ==> Winds(v, w, e)
  {
  }

  /** Going from `v` to `w` loses nothing, whether the account is settled or not. */
  ghost predicate Keeps(v: View, w: View, e: Limits) {
    (Settled(v, e) ==> Settled(w, e)) && Advances(v, w, e)
  }

  lemma DropPendingKeeps(v: View, e: Limits, n: nat)
    requires n in v.pending && Separate(v)
    ensures Keeps(v, DropPending(v, n), e)
  {
  }

  lemma DropQueuedKeeps(v: View, e: Limits, n: nat)
    ensures Keeps(v, DropQueued(v, n), e)
  {
  }

  /** Replacing a pending transaction by one that can be paid for. */
  lemma PutPendingKeeps(v: View, e: Limits, tx: Tx)
    requires tx.nonce in v.pending && e.Covers(tx)
    ensures Keeps(v, PutPending(v, tx), e)
  {
  }

  /** Queueing a transaction whose nonce is neither used up nor pending. */
  lemma PutQueuedKeeps(v: View, e: Limits, tx: Tx)
    requires tx.nonce !in v.pending && e.nonce <= tx.nonce
    ensures Keeps(v, PutQueued(v, tx), e)
  {
  }

  lemma KeepsTransitive(u: View, v: View, w: View, e: Limits)
    requires Keeps(u, v, e) && Keeps(v, w, e)
    ensures Keeps(u, w, e)
  {
  }

  // --------------------------------------------------- what a run leaves behind

  /** An account as a run may find it before it promotes: settled, or with the virtual
      nonce set back to the chain nonce. */
  ghost predicate Ready(v: View, e: Limits) {
    Settling(v, e) && (v.nonce == e.nonce || (Settled(v, e) && Floored(v, e)))
  }

  /** Promotion is to start where a transaction is pending already, all pending ones stay,
      and a queued one that can be paid for continues them. */
  ghost predicate Overlooked(v: View, e: Limits) {
    && v.nonce in v.pending
    && (forall n :: n in v.pending && e.nonce <= n ==> e.Covers(v.pending[n]))
    && exists n :: n in v.queued && e.nonce < n && n - 1 in v.pending && e.Covers(v.queued[n])
  }

  lemma SettledNotOverlooked(v: View, e: Limits)
    requires Settled(v, e)
    ensures !Overlooked(v, e)
  {
  }

  /** Where the virtual nonce is pending already nothing is promoted. */
  lemma NothingPromoted(v: View, e: Limits)
    requires Settling(v, e) && v.nonce == e.nonce && e.nonce in v.pending
    ensures Promoted(v, e) == v.(queued := Usable(v, e))
  {
  }

  /** Re-checking pending transactions that can all be paid for only drops old ones. */
  lemma DemotedAllPayable(v: View, e: Limits)
    requires forall n :: n in v.pending && e.nonce <= n ==> e.Covers(v.pending[n])
    requires From(v.pending, e.nonce) != map[] ==> e.nonce in v.pending
    ensures Demoted(v, e) == View(From(v.pending, e.nonce), v.queued, v.nonce)
  {
  }

  /** Re-checking cuts a gapless list at its lowest unpayable nonce. */
  lemma DemotedAt(v: View, e: Limits, bad: nat)
    requires forall i, n :: e.nonce <= i < n && n in v.pending ==> i in v.pending
    requires e.nonce <= bad && bad in v.pending && !e.Covers(v.pending[bad])
    requires forall n :: e.nonce <= n < bad ==> e.Covers(v.pending[n])
    ensures forall n :: n in Demoted(v, e).pending <==> e.nonce <= n < bad
    ensures forall n :: n in Demoted(v, e).queued ==> n in v.queued || bad < n
    ensures Demoted(v, e).nonce == v.nonce
  {
    var current := From(v.pending, e.nonce);
    var kept := PayablePrefix(current, e.balance, e.maxGas);
    assert bad in current;
    forall n ensures n in kept <==> e.nonce <= n < bad {
      if e.nonce <= n < bad {
        assert n in current;
      }
    }
  }

  lemma LowestUnpayable(v: View, e: Limits) returns (bad: nat)
    requires !(forall n :: n in v.pending && e.nonce <= n ==> e.Covers(v.pending[n]))
    ensures e.nonce <= bad && bad in v.pending && !e.Covers(v.pending[bad])
    ensures forall n :: n in v.pending && e.nonce <= n < bad ==> e.Covers(v.pending[n])
  {
    var unpayable := map n | n in v.pending && e.nonce <= n && !e.Covers(v.pending[n]) :: v.pending[n];
    var some :| some in v.pending && e.nonce <= some && !e.Covers(v.pending[some]);
    assert some in unpayable;
    bad := LowestExists(unpayable);
    assert forall n :: n in v.pending && e.nonce <= n < bad ==> n !in unpayable;
  }

  /** A clean account passes the re-check as it is. */
  lemma CleanStays(v: View, e: Limits)
    requires Settling(v, e) && Clean(v, e)
    ensures Demoted(v, e) == v
  {
    assert From(v.pending, e.nonce) == v.pending;
    if v.pending != map[] {
      LowestOf(v.pending);
      assert e.nonce == Lowest(v.pending) || e.nonce in v.pending;
    }
    DemotedAllPayable(v, e);
  }

  /** What is left to continue the pending transactions once these have been cut at one
      that cannot be paid for: nothing. */
  lemma CutIdle(v: View, e: Limits)
    requires Settling(v, e) && e.nonce in v.pending && Fresh(v, e)
    requires !(forall n :: n in v.pending && e.nonce <= n ==> e.Covers(v.pending[n]))
    ensures Idle(Demoted(v, e), e)
  {
    var bad := LowestUnpayable(v, e);
    DemotedAt(v, e, bad);
    assert forall n :: n in Demoted(v, e).queued ==> bad < n;
  }

  /** With every old pending transaction used up, promotion starts afresh. */
  lemma PromotedAfresh(v: View, e: Limits)
    requires Settling(v, e) && v.nonce == e.nonce && e.nonce !in v.pending
    ensures
      var w := Promoted(v, e);
      && From(w.pending, e.nonce) == ReadyRun(Usable(v, e), e.nonce)
      && (forall n :: n in w.pending && e.nonce <= n ==> e.Covers(w.pending[n]))
      && (From(w.pending, e.nonce) != map[] ==> e.nonce in w.pending)
  {
    var usable := Usable(v, e);
    var run := ReadyRun(usable, e.nonce);
    assert forall n :: n in v.pending ==> n < e.nonce;
    assert forall n :: n in run ==> n in usable && run[n] == usable[n];
    if run != map[] {
      ReadyRunShape(usable, e.nonce);
      assert Lowest(usable) == e.nonce;
    }
  }

  lemma RunIdle(usable: Items, e: Limits, nonce: nat)
    requires forall n :: n in usable ==> e.nonce <= n
    ensures Idle(View(ReadyRun(usable, e.nonce), Without(usable, ReadyRun(usable, e.nonce)), nonce), e)
  {
  }

  lemma AfreshIdle(v: View, e: Limits, limit: Limit, w: View)
    requires Settling(v, e) && v.nonce == e.nonce && e.nonce !in v.pending
    requires IsPromotion(v, e, limit, w)
    ensures Idle(Demoted(w, e), e)
  {
    PromotedAfresh(v, e);
    DemotedAllPayable(w, e);
    var full := Promoted(v, e);
    RunIdle(Usable(v, e), e, full.nonce);
    FewerQueuedIdle(View(From(full.pending, e.nonce), full.queued, full.nonce), Demoted(w, e), e);
  }

  /** Unless it is overlooked, nothing executable of a sender stays queued through a run
      that promotes and re-checks it. */
  lemma RecheckIdle(v: View, e: Limits, limit: Limit, w: View)
    requires Separate(v) && Ready(v, e) && IsPromotion(v, e, limit, w)
    ensures !Overlooked(v, e) ==> Idle(Demoted(w, e), e)
  {
    if v.nonce == e.nonce && e.nonce !in v.pending {
      AfreshIdle(v, e, limit, w);
    } else if v.nonce == e.nonce {
      NothingPromoted(v, e);
      if forall n :: n in v.pending && e.nonce <= n ==> e.Covers(v.pending[n]) {
        DemotedAllPayable(w, e);
      } else {
        CutIdle(w, e);
      }
    } else {
      PromotionIdle(v, e, limit, w);
      SettledIsSettling(v, e);
      PromotionAdvances(v, e, limit, w);
      CleanStays(w, e);
    }
  }

  /** A run that promotes and re-checks a sender leaves an executable transaction queued
      exactly when it is overlooked. */
  lemma RecheckStrands(v: View, e: Limits)
    requires Separate(v) && Ready(v, e)
    ensures Idle(Demoted(Promoted(v, e), e), e) <==> !Overlooked(v, e)
  {
    RecheckIdle(v, e, Unlimited, Promoted(v, e));
    if Overlooked(v, e) {
      OverlookedStays(v, e);
    }
  }

  lemma OverlookedStays(v: View, e: Limits)
    requires Ready(v, e) && Overlooked(v, e)
    ensures !Idle(Demoted(Promoted(v, e), e), e)
  {
    NothingPromoted(v, e);
    var u := v.(queued := Usable(v, e));
    DemotedAllPayable(u, e);
    var n :| n in v.queued && e.nonce < n && n - 1 in v.pending && e.Covers(v.queued[n]);
    assert n in u.queued && n - 1 in From(u.pending, e.nonce);
  }

  ghost predicate Fits(m: Items, limit: Limit) {
    limit.Unlimited? || |m| <= limit.count
  }

  lemma PromotionFits(v: View, e: Limits, limit: Limit, w: View)
    requires IsPromotion(v, e, limit, w) && Fits(v.queued, limit)
    ensures w == Promoted(v, e)
  {
    var full := Promoted(v, e);
    PartSize(full.queued, v.queued);
    PartSize(w.queued, full.queued);
  }

  /** What promoting a sender achieves. */
  ghost predicate Promotes(v: View, w: View, e: Limits, limit: Limit) {
    && Advances(v, w, e)
    && (Settled(v, e) && Floored(v, e) ==> Idle(w, e))
    && (Fits(v.queued, limit) ==> w == Promoted(v, e))
  }

  lemma PromotionPromotes(v: View, e: Limits, limit: Limit, w: View)
    requires Separate(v) && IsPromotion(v, e, limit, w)
    ensures Promotes(v, w, e, limit)
  {
    PromotionAdvances(v, e, limit, w);
    if Settled(v, e) && Floored(v, e) {
      PromotionIdle(v, e, limit, w);
    }
    if Fits(v.queued, limit) {
      PromotionFits(v, e, limit, w);
    }
  }

  /** What promoting and re-checking a sender achieves. */
  ghost predicate Overhauls(v: View, w: View, e: Limits, limit: Limit) {
    && (Settling(v, e) ==> Settling(w, e))
    && Clean(w, e)
    && (Floored(v, e) ==> Floored(w, e))
    && (Sunken(v, e) ==> Sunken(w, e))
    && (Ready(v, e) && !Overlooked(v, e) ==> Idle(w, e))
    && (Fits(v.queued, limit) ==> w == Demoted(Promoted(v, e), e))
  }

  lemma RecheckOverhauls(v: View, e: Limits, limit: Limit, w: View)
    requires Separate(v) && Separate(w) && IsPromotion(v, e, limit, w)
    ensures Overhauls(v, Demoted(w, e), e, limit)
  {
    PromotionAdvances(v, e, limit, w);
    DemotedRechecked(w, e);
    if Ready(v, e) {
      RecheckIdle(v, e, limit, w);
    }
    if Fits(v.queued, limit) {
      PromotionFits(v, e, limit, w);
    }
  }

  /** What the end of a run does to an account that is ready to be settled. */
  ghost predicate Concludes(v: View, w: View, e: Limits) {
    Settling(v, e) && Clean(v, e) ==>
      && Settled(w, e)
      && (Idle(v, e) ==> Idle(w, e))
      && (Floored(v, e) ==> Floored(w, e))
      && (Sunken(v, e) ==> Sunken(w, e))
  }

  lemma WoundConcludes(v: View, w: View, e: Limits)
    requires Winds(v, w, e)
    ensures Concludes(v, Finished(w), e)
  {
  }

  /** What a run does for a sender: promote and re-check it, only promote it, or nothing. */
  datatype Duty = Overhaul | Promote | Rest

  ghost predicate Works(v: View, w: View, e: Limits, limit: Limit, duty: Duty) {
    match duty
    case Overhaul => Overhauls(v, w, e, limit)
    case Promote => Promotes(v, w, e, limit)
    case Rest => w == v
  }

  /** The sender after a run that exceeds no limit. */
  ghost function AfterRun(v: View, e: Limits, duty: Duty): View {
    Finished(match duty
             case Overhaul => Demoted(Promoted(v, e), e)
             case Promote => Promoted(v, e)
             case Rest => v)
  }

  /** What serving a sender leaves of it. */
  ghost predicate Served(v: View, w: View, e: Limits, limit: Limit, duty: Duty) {
    match duty
    case Overhaul => exists p :: IsPromotion(v, e, limit, p) && w == Demoted(p, e)
    case Promote => IsPromotion(v, e, limit, w)
    case Rest => w == v
  }

  lemma PromotionSeparate(v: View, e: Limits, limit: Limit, w: View)
    requires Separate(v) && IsPromotion(v, e, limit, w)
    ensures Separate(w) && Separate(Demoted(w, e))
  {
    PromotedFresh(v, e);
  }

  lemma ServedWorks(v: View, w: View, e: Limits, limit: Limit, duty: Duty)
    requires Separate(v) && Served(v, w, e, limit, duty)
    ensures Separate(w) && Works(v, w, e, limit, duty)
  {
    match duty
    case Overhaul =>
      var p :| IsPromotion(v, e, limit, p) && w == Demoted(p, e);
      PromotionSeparate(v, e, limit, p);
      RecheckOverhauls(v, e, limit, p);
    case Promote =>
      PromotionSeparate(v, e, limit, w);
      PromotionPromotes(v, e, limit, w);
    case Rest =>
  }

  lemma ServedRoomy(v: View, w: View, e: Limits, limit: Limit, duty: Duty)
    ensures Served(v, w, e, limit, duty) && Fits(v.queued, limit) ==> Finished(w) == AfterRun(v, e, duty)
  {
    if Served(v, w, e, limit, duty) && Fits(v.queued, limit) {
      if duty == Overhaul {
        var p :| IsPromotion(v, e, limit, p) && w == Demoted(p, e);
        PromotionFits(v, e, limit, p);
      } else if duty == Promote {
        PromotionFits(v, e, limit, w);
      }
    }
  }

  ghost predicate CutTo(v: View, w: View, cut: bool, level: nat) {
    Cropped(v, w, !cut, level)
  }

  /** What the end of a run leaves of a sender: pending transactions down to a common level,
      if it is cut, the lowest queued ones, and the virtual nonce that belongs to that. */
  ghost predicate Ended(v: View, x: View, cut: bool, level: nat) {
    exists c, q :: CutTo(v, c, cut, level) && QueueCut(c, q) && x == Finished(q)
  }

  lemma EndedConcludes(v: View, x: View, e: Limits, cut: bool, level: nat)
    requires Separate(v) && Ended(v, x, cut, level)
    ensures Concludes(v, x, e)
  {
    var c, q :| CutTo(v, c, cut, level) && QueueCut(c, q) && x == Finished(q);
    CroppedWinds(v, c, !cut, level, e);
    QueueCutWinds(c, q, e);
    WindsTransitive(v, c, q, e);
    WoundConcludes(v, q, e);
  }

  /** How a run treats a sender: the limit to its queue, what is to be done for it, whether its
      pending transactions are cut, and to which level. */
  datatype Terms = Terms(limit: Limit, duty: Duty, cut: bool, level: nat)

  /** From `v` to `x` a sender is served, and then its run ends. */
  ghost predicate Ran(v: View, x: View, e: Limits, terms: Terms) {
    exists w :: Served(v, w, e, terms.limit, terms.duty) && Ended(w, x, terms.cut, terms.level)
  }

  /** An account before promotion, with its virtual nonce above or below the chain nonce. */
  ghost predicate Poised(v: View, e: Limits, duty: Duty, afloat: bool) {
    && Separate(v) && Settling(v, e) && (duty == Overhaul || Settled(v, e))
    && if afloat then Ready(v, e) && Floored(v, e) else Sunken(v, e)
  }

  /** A run settles a sender, keeps its virtual nonce above or below the chain nonce, and
      leaves nothing executable in its queue that is not overlooked. */
  lemma RunSettles(v: View, x: View, e: Limits, terms: Terms, afloat: bool)
    requires Poised(v, e, terms.duty, afloat) && Ran(v, x, e, terms)
    ensures Settled(x, e) && (Floored(x, e) <==> afloat)
    ensures afloat && terms.duty != Rest && !Overlooked(v, e) ==> Idle(x, e)
  {
    var w :| Served(v, w, e, terms.limit, terms.duty) && Ended(w, x, terms.cut, terms.level);
    ServedWorks(v, w, e, terms.limit, terms.duty);
    EndedConcludes(w, x, e, terms.cut, terms.level);
    WorkSettles(v, w, x, e, terms.limit, terms.duty, afloat);
  }

  lemma WorkSettles(v: View, w: View, x: View, e: Limits, limit: Limit, duty: Duty, afloat: bool)
    requires Poised(v, e, duty, afloat) && Works(v, w, e, limit, duty) && Concludes(w, x, e)
    ensures Settled(x, e) && (Floored(x, e) <==> afloat)
    ensures afloat && duty != Rest && !Overlooked(v, e) ==> Idle(x, e)
  {
  }

  /** Where nothing but a queued transaction at the lowest place continues the pending ones. */
  ghost predicate Dangling(w: View, e: Limits, next: nat) {
    && e.nonce < next && (forall n :: n in w.pending <==> e.nonce <= n < next)
    && (forall n :: n in w.queued ==> next <= n) && (w.queued != map[] ==> next in w.queued)
  }

  /** The transaction that is overlooked is the lowest usable one, right behind the pending. */
  lemma OverlookedNext(v: View, e: Limits) returns (next: nat)
    requires Separate(v) && Ready(v, e) && Overlooked(v, e)
    ensures v.nonce == e.nonce && e.nonce in v.pending && e.nonce < next
    ensures next in Usable(v, e) && forall n :: n in Usable(v, e) ==> next <= n
    ensures forall n :: n in From(v.pending, e.nonce) <==> e.nonce <= n < next
  {
    next :| next in v.queued && e.nonce < next && next - 1 in v.pending && e.Covers(v.queued[next]);
  }

  lemma PromotedOverlooked(v: View, e: Limits, limit: Limit, p: View)
    requires Settling(v, e) && v.nonce == e.nonce && e.nonce in v.pending && IsPromotion(v, e, limit, p)
    requires forall n :: n in v.pending && e.nonce <= n ==> e.Covers(v.pending[n])
    ensures LeftUnder(limit, Usable(v, e), p.queued)
    ensures Demoted(p, e) == View(From(v.pending, e.nonce), p.queued, v.nonce)
  {
    NothingPromoted(v, e);
    DemotedAllPayable(p, e);
  }

  /** What serving leaves of a sender that is overlooked. */
  lemma OverlookedServed(v: View, w: View, e: Limits, limit: Limit) returns (next: nat)
    requires Separate(v) && Ready(v, e) && Overlooked(v, e) && Served(v, w, e, limit, Overhaul)
    ensures Dangling(w, e, next) && w.pending == From(v.pending, e.nonce)
  {
    var p :| IsPromotion(v, e, limit, p) && w == Demoted(p, e);
    next := OverlookedNext(v, e);
    PromotedOverlooked(v, e, limit, p);
    LowestKept(Usable(v, e), limit, p.queued, next);
  }

  lemma LowestKept(m: Items, limit: Limit, kept: Items, low: nat)
    requires LeftUnder(limit, m, kept) && low in m && forall n :: n in m ==> low <= n
    ensures (forall n :: n in kept ==> n in m) && (kept != map[] ==> low in kept)
  {
    if kept != map[] {
      var n :| n in kept;
      assert low in kept;
    }
  }

  /** It keeps an executable transaction in its queue through the end of the run exactly if
      nothing pending is cut and something is left queued. */
  lemma DanglingEnds(w: View, x: View, e: Limits, next: nat, cut: bool, level: nat)
    requires Separate(w) && Dangling(w, e, next) && Ended(w, x, cut, level)
    ensures !Idle(x, e) <==> (!cut || |w.pending| <= level) && x.queued != map[]
  {
    var c, q :| CutTo(w, c, cut, level) && QueueCut(c, q) && x == Finished(q);
    assert e.nonce in w.pending && next - 1 in w.pending;
    if !cut || |w.pending| <= level {
      if q.queued != map[] {
        assert next in q.queued;
      }
    } else {
      CutBelow(w, c, e, next);
    }
  }

  lemma CutBelow(w: View, c: View, e: Limits, next: nat)
    requires Dangling(w, e, next) && TrimmedTo(w, c) && |c.pending| < |w.pending|
    ensures forall n :: n in c.pending ==> n + 1 < next
  {
    assert w.pending.Keys <= c.pending.Keys ==> c.pending == w.pending;
    var lost :| lost in w.pending && lost !in c.pending;
    assert forall n :: n in c.pending ==> n < lost;
  }

  /** A reset run leaves an executable transaction of a sender in its queue exactly if it is
      overlooked, none of its pending ones is cut, and the queue is not cut altogether. */
  lemma RunLeaves(v: View, x: View, e: Limits, terms: Terms)
    requires Separate(v) && Ready(v, e) && terms.duty == Overhaul && Ran(v, x, e, terms)
    requires !Overlooked(v, e) ==> Idle(x, e)
    ensures Idle(x, e) <==> !(Overlooked(v, e) && Uncut(v, e, terms) && x.queued != map[])
  {
    if Overlooked(v, e) {
      var w :| Served(v, w, e, terms.limit, terms.duty) && Ended(w, x, terms.cut, terms.level);
      ServedWorks(v, w, e, terms.limit, terms.duty);
      var next := OverlookedServed(v, w, e, terms.limit);
      DanglingEnds(w, x, e, next, terms.cut, terms.level);
    }
  }

  /** The pending transactions of a sender from its chain nonce on are within the level. */
  ghost predicate Uncut(v: View, e: Limits, terms: Terms) {
    !terms.cut || |From(v.pending, e.nonce)| <= terms.level
  }

  /** Without limits in the way, what is overlooked stays in the queue for certain. */
  lemma RunStrands(v: View, e: Limits)
    requires Separate(v) && Ready(v, e)
    ensures Idle(AfterRun(v, e, Overhaul), e) <==> !Overlooked(v, e)
  {
    RecheckStrands(v, e);
  }

  /** A settled account that a run may find at a head which does not lower its nonce. */
  ghost predicate Steady(v: View, e: Limits, e': Limits) {
    Settled(v, e) && e.nonce <= e'.nonce
  }

  /** What a run makes of a sender, from `v` over what promotion finds to `w`. It is served and
      its lists are cut as the terms say. A settled one whose nonce is not lowered is settled
      again, and its virtual nonce at or above the chain nonce exactly if it is afloat. Then
      nothing executable of a sender that is served is left in its queue unless it was
      overlooked, and after a reset exactly then, if its pending ones are not cut and the queue
      is not cut altogether. While no limit is reached no cut plays a part. */
  ghost predicate RunOutcome(v: View, e: Limits, ready: View, w: View, e': Limits, terms: Terms, afloat: bool,
                             roomy: bool) {
    && Ran(ready, w, e', terms)
    && (Steady(v, e, e') ==>
          && Settled(w, e') && (Floored(w, e') <==> afloat)
          && (afloat && terms.duty != Rest && !Overlooked(ready, e') ==> Idle(w, e'))
          && (afloat && terms.duty == Overhaul ==>
                (Idle(w, e') <==> !(Overlooked(ready, e') && Uncut(ready, e', terms) && w.queued != map[])))
          && (afloat && terms.duty == Overhaul && roomy ==> (Idle(w, e') <==> !Overlooked(ready, e'))))
    && (roomy ==> w == AfterRun(ready, e', terms.duty))
  }

  lemma RunEnds(v: View, e: Limits, ready: View, w: View, e': Limits, terms: Terms, afloat: bool, roomy: bool)
    requires Steady(v, e, e') ==> Poised(ready, e', terms.duty, afloat)
    requires Ran(ready, w, e', terms) && (roomy ==> w == AfterRun(ready, e', terms.duty))
    ensures RunOutcome(v, e, ready, w, e', terms, afloat, roomy)
  {
    if Steady(v, e, e') {
      RunSettles(ready, w, e', terms, afloat);
      if afloat && terms.duty == Overhaul {
        RunLeaves(ready, w, e', terms);
        RunStrands(ready, e');
      }
    }
  }

  // ------------------------------------------- how far a run is determined

  /** A list has kept its lowest nonces. */
  ghost predicate LowPart(part: Items, m: Items) {
    Within(part, m) && forall i, n :: i in part && n in m && n !in part ==> i < n
  }

  lemma LowPartsEqual(a: Items, b: Items, m: Items)
    requires LowPart(a, m) && LowPart(b, m) && |a| == |b|
    ensures a == b
  {
    LowPartsNested(a, b, m);
    if Within(a, b) {
      PartSize(a, b);
    } else {
      PartSize(b, a);
    }
  }

  lemma LowPartsNested(a: Items, b: Items, m: Items)
    requires LowPart(a, m) && LowPart(b, m)
    ensures Within(a, b) || Within(b, a)
  {
    if !Within(a, b) {
      var k :| k in a && k !in b;
      forall i | i in b ensures i in a {
        assert i < k;
      }
    }
  }

  lemma PromotionOnce(v: View, e: Limits, limit: Limit, p: View, q: View)
    requires IsPromotion(v, e, limit, p) && IsPromotion(v, e, limit, q)
    ensures p == q
  {
    if limit.AtMost? {
      LowPartsEqual(p.queued, q.queued, Promoted(v, e).queued);
    }
  }

  lemma ServedOnce(v: View, w: View, w': View, e: Limits, limit: Limit, duty: Duty)
    requires Served(v, w, e, limit, duty) && Served(v, w', e, limit, duty)
    ensures w == w'
  {
    if duty == Overhaul {
      var p :| IsPromotion(v, e, limit, p) && w == Demoted(p, e);
      var q :| IsPromotion(v, e, limit, q) && w' == Demoted(q, e);
      PromotionOnce(v, e, limit, p, q);
    } else if duty == Promote {
      PromotionOnce(v, e, limit, w, w');
    }
  }

  lemma CroppedOnce(v: View, c: View, c': View, local: bool, level: nat)
    requires Cropped(v, c, local, level) && Cropped(v, c', local, level)
    ensures c == c'
  {
    if !(local || |v.pending| <= level) {
      LowPartsEqual(c.pending, c'.pending, v.pending);
    }
  }

  lemma EndedOnce(v: View, x: View, x': View, cut: bool, level: nat)
    requires Ended(v, x, cut, level) && Ended(v, x', cut, level) && |x.queued| == |x'.queued|
    ensures x == x'
  {
    var c, q :| CutTo(v, c, cut, level) && QueueCut(c, q) && x == Finished(q);
    var c', q' :| CutTo(v, c', cut, level) && QueueCut(c', q') && x' == Finished(q');
    CroppedOnce(v, c, c', !cut, level);
    LowPartsEqual(q.queued, q'.queued, c.queued);
  }

  /** A run leaves no choice but how many transactions the cut of the queue spares. */
  lemma RanOnce(v: View, x: View, x': View, e: Limits, terms: Terms)
    requires Ran(v, x, e, terms) && Ran(v, x', e, terms) && |x.queued| == |x'.queued|
    ensures x == x'
  {
    var w :| Served(v, w, e, terms.limit, terms.duty) && Ended(w, x, terms.cut, terms.level);
    var w' :| Served(v, w', e, terms.limit, terms.duty) && Ended(w', x', terms.cut, terms.level);
    ServedOnce(v, w, w', e, terms.limit, terms.duty);
    EndedOnce(w, x, x', terms.cut, terms.level);
  }

  /** A settled account stays so, and its virtual nonce on its side of the chain nonce. */
  ghost predicate Stays(v: View, w: View, e: Limits) {
    Settled(v, e) ==> Settled(w, e) && (Floored(w, e) <==> Floored(v, e))
  }

  lemma KeepsStays(v: View, w: View, e: Limits)
    requires Keeps(v, w, e)
    ensures Stays(v, w, e)
  {
  }
}
