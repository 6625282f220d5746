/** The scheduling loop and the pool together: what the requester of a promotion finds once
    the channel it waits for is closed. */
module Background {
  import opened Transactions
  import opened Accounts
  import opened Pool
  import opened ReorgSchedulers

  /** What a run does to the head: nothing without a reset, else what came of it. */
  function OutcomeOf(job: Job, outcome: ResetOutcome): Option<ResetOutcome> {
    if job.reset.Some? then Some(outcome) else None
  }

  /** A request to promote a sender waits for the channel. */
  ghost predicate Awaits(log: seq<Request>, done: Chan, a: Address) {
    exists i :: 0 <= i < |log| && log[i].PromoteAll? && log[i].done == done && a in log[i].accounts
  }

  lemma AwaitedIsDirty(log: seq<Request>, done: Chan, a: Address)
    requires Awaits(log, done, a)
    ensures Merged(log, done).dirty.Some? && a in Merged(log, done).dirty.value
  {
    var i: nat :| i < |log| && log[i].PromoteAll? && log[i].done == done && a in log[i].accounts;
    MergedCovers(log, i);
  }

  /** A run does its job: nothing executable stays in the queue of a dirty sender that was settled
      and is afloat, unless the run also resets the pool and the sender is overlooked. */
  method RunJob(pool: TxPool, job: Job, outcome: ResetOutcome, beats: Address -> nat)
    requires pool.Consistent()
    modifies pool, pool.all, pool.pendingNonces
    ensures pool.Consistent()
    ensures forall a {:trigger Sender(a)} :: Sender(a) && job.dirty.Some? && a in job.dirty.value ==>
      Steady(old(pool.V(a)), old(pool.E(a)), pool.E(a)) && old(pool.Afloat(OutcomeOf(job, outcome), a)) &&
      (job.reset.None? || !Overlooked(old(pool.ReadyView(OutcomeOf(job, outcome), a)), pool.E(a)))
      ==> Idle(pool.V(a), pool.E(a))
  {
    var dirty := if job.dirty.Some? then job.dirty.value else {};
    ghost var level, cut := pool.RunReorg(OutcomeOf(job, outcome), dirty, beats);
    forall a | job.dirty.Some? && a in job.dirty.value && Steady(old(pool.V(a)), old(pool.E(a)), pool.E(a))
      && old(pool.Afloat(OutcomeOf(job, outcome), a))
      && (job.reset.None? || !Overlooked(old(pool.ReadyView(OutcomeOf(job, outcome), a)), pool.E(a)))
      ensures Idle(pool.V(a), pool.E(a)) {
      assert Sender(a);
      SettledNotOverlooked(old(pool.V(a)), old(pool.E(a)));
    }
  }

  /** The active run does its work on the pool and closes its channel. Whoever asked for a
      sender to be promoted and waits for that channel then finds nothing executable in the
      sender's queue, provided that the sender was settled, its virtual nonce is not below the
      chain nonce and, in a run that also resets the pool, it is not overlooked. */
  method FinishActive(loop: Scheduler, pool: TxPool, job: Job, outcome: ResetOutcome, beats: Address -> nat)
    requires loop.Valid() && loop.curDone.Some? && loop.curDone.value in loop.active
    requires job == loop.jobs[loop.curDone.value]
    requires pool.Consistent()
    modifies loop, pool, pool.all, pool.pendingNonces
    ensures loop.Valid() && pool.Consistent() && loop.closed == old(loop.closed) + {old(loop.curDone).value}
    ensures loop.log == old(loop.log) && loop.jobs == old(loop.jobs)
    ensures forall a {:trigger Sender(a)} :: Sender(a) && Awaits(loop.log, old(loop.curDone).value, a) ==>
      Steady(old(pool.V(a)), old(pool.E(a)), pool.E(a)) && old(pool.Afloat(OutcomeOf(job, outcome), a)) &&
      (job.reset.None? || !Overlooked(old(pool.ReadyView(OutcomeOf(job, outcome), a)), pool.E(a)))
      ==> Idle(pool.V(a), pool.E(a))
  {
    ghost var done := loop.curDone.value;
    RunJob(pool, job, outcome, beats);
    forall a | Awaits(loop.log, done, a) && Steady(old(pool.V(a)), old(pool.E(a)), pool.E(a))
      && old(pool.Afloat(OutcomeOf(job, outcome), a))
      && (job.reset.None? || !Overlooked(old(pool.ReadyView(OutcomeOf(job, outcome), a)), pool.E(a)))
      ensures Idle(pool.V(a), pool.E(a)) {
      assert Sender(a);
      AwaitedIsDirty(loop.log, done, a);
    }
    loop.EndRun();
  }
}
