/** The loop that schedules the background runs of the transaction pool: it merges the
    requests that come in while a run is active into the next one. */
module ReorgSchedulers {
  import opened Transactions

  type Chan = nat

  type Head = Option<nat>

  datatype Reset = Reset(oldHead: Head, newHead: Head)

  /** A request and the channel its sender was told to wait for. */
  datatype Request =
    | ResetTo(reset: Reset, done: Chan)
    | PromoteAll(accounts: set<Address>, done: Chan)

  /** What a run is launched with. */
  datatype Job = Job(reset: Option<Reset>, dirty: Option<set<Address>>)

  /** All requests that wait for a channel, merged. */
  function Merged(log: seq<Request>, done: Chan): Job {
    if log == [] then Job(None, None) else
      var job, last := Merged(log[..|log| - 1], done), log[|log| - 1];
      if last.done != done then job
      else match last
        case ResetTo(reset, _) =>
          job.(reset := Some(if job.reset.None? then reset else Reset(job.reset.value.oldHead, reset.newHead)))
        case PromoteAll(accounts, _) =>
          job.(dirty := Some(if job.dirty.None? then accounts else job.dirty.value + accounts))
  }

  /** A job covers a request: it resets the pool, or has the accounts to promote. */
  predicate Covers(job: Job, request: Request) {
    match request
    case ResetTo(_, _) => job.reset.Some?
    case PromoteAll(accounts, _) => job.dirty.Some? && accounts <= job.dirty.value
  }

  lemma {:induction false} MergedCovers(log: seq<Request>, i: nat)
    requires i < |log|
    ensures Covers(Merged(log, log[i].done), log[i])
    decreases |log|
  {
    if i < |log| - 1 {
      MergedCovers(log[..|log| - 1], i);
    }
  }

  /** Nothing but the requests is in a merged job: a reset comes from one, and so does
      every dirty account. */
  lemma {:induction false} MergedOnly(log: seq<Request>, done: Chan)
    ensures Merged(log, done).reset.Some? ==> exists i :: 0 <= i < |log| && log[i].ResetTo? && log[i].done == done
    ensures Merged(log, done).dirty.Some? ==>
      forall a :: a in Merged(log, done).dirty.value ==>
        exists i :: 0 <= i < |log| && log[i].PromoteAll? && log[i].done == done && a in log[i].accounts
  {
    if log != [] {
      var init, last := log[..|log| - 1], log[|log| - 1];
      MergedOnly(init, done);
      assert last.done == done && last.ResetTo? ==> log[|log| - 1].ResetTo?;
      assert forall i :: 0 <= i < |init| ==> init[i] == log[i];
      if Merged(log, done).dirty.Some? {
        forall a | a in Merged(log, done).dirty.value
          ensures exists i :: 0 <= i < |log| && log[i].PromoteAll? && log[i].done == done && a in log[i].accounts
        {
          if last.done == done && last.PromoteAll? && a in last.accounts {
          } else {
            var i :| 0 <= i < |init| && init[i].PromoteAll? && init[i].done == done && a in init[i].accounts;
            assert log[i] == init[i];
          }
        }
      }
    }
  }

  predicate IsReset(log: seq<Request>, i: int, done: Chan) {
    0 <= i < |log| && log[i].ResetTo? && log[i].done == done
  }

  /** Merged resets go from the old head of the first to the new head of the last. */
  lemma {:induction false} MergedResets(log: seq<Request>, done: Chan, i: nat, j: nat)
    requires IsReset(log, i, done) && forall k :: IsReset(log, k, done) ==> i <= k
    requires IsReset(log, j, done) && forall k :: IsReset(log, k, done) ==> k <= j
    ensures Merged(log, done).reset == Some(Reset(log[i].reset.oldHead, log[j].reset.newHead))
    decreases |log|
  {
    var init, last := log[..|log| - 1], log[|log| - 1];
    if j < |log| - 1 {
      assert !IsReset(log, |log| - 1, done);
      assert forall k :: IsReset(init, k, done) ==> IsReset(log, k, done);
      MergedResets(init, done, i, j);
    } else if i < j {
      assert forall k :: IsReset(init, k, done) ==> IsReset(log, k, done);
      StartsFromFirst(init, done, i);
    } else {
      NoneBefore(init, done, log);
    }
  }

  /** Where there is a first reset the merged one starts from its old head. */
  lemma {:induction false} StartsFromFirst(log: seq<Request>, done: Chan, i: nat)
    requires IsReset(log, i, done) && forall k :: IsReset(log, k, done) ==> i <= k
    ensures Merged(log, done).reset.Some? && Merged(log, done).reset.value.oldHead == log[i].reset.oldHead
    decreases |log|
  {
    var init := log[..|log| - 1];
    if i < |log| - 1 {
      assert forall k :: IsReset(init, k, done) ==> IsReset(log, k, done);
      StartsFromFirst(init, done, i);
    } else {
      NoneBefore(init, done, log);
    }
  }

  lemma NoneBefore(init: seq<Request>, done: Chan, log: seq<Request>)
    requires |log| > 0 && init == log[..|log| - 1] && forall k :: IsReset(log, k, done) ==> k == |log| - 1
    ensures Merged(init, done).reset == None
  {
    MergedOnly(init, done);
    if Merged(init, done).reset.Some? {
      var k :| 0 <= k < |init| && init[k].ResetTo? && init[k].done == done;
      assert IsReset(log, k, done);
    }
  }

  lemma {:induction false} MergedUnused(log: seq<Request>, done: Chan)
    requires forall i :: 0 <= i < |log| ==> log[i].done != done
    ensures Merged(log, done) == Job(None, None)
  {
    if log != [] {
      MergedUnused(log[..|log| - 1], done);
    }
  }

  /** The events of all runs, in the order the runs were launched. */
  function AllEvents(batches: seq<seq<Tx>>): seq<Tx> {
    if batches == [] then [] else AllEvents(batches[..|batches| - 1]) + batches[|batches| - 1]
  }

  lemma EventsNext(batches: seq<seq<Tx>>, batch: seq<Tx>)
    ensures AllEvents(batches + [batch]) + [] == AllEvents(batches) + batch
  {
  }

  datatype Step =
    | RequestReset(reset: Reset)
    | RequestPromote(accounts: set<Address>)
    | QueueEvent(tx: Tx)
    | RunEnds
    | ReceiveDone
    | Shutdown

  /** At most one run is active, the one the loop knows of; a run that is not active has
      closed its channel, and before the end no other channel is closed. */
  ghost predicate Channels(active: set<Chan>, closed: set<Chan>, curDone: Option<Chan>, nextDone: Chan,
                           runs: set<Chan>, stopped: bool) {
    && (forall c :: c in active ==> curDone == Some(c) && c in runs && c !in closed)
    && (forall c :: c in runs ==> c < nextDone && (c in active || c in closed))
    && (curDone.Some? ==> curDone.value in runs)
    && (forall c :: c in closed ==> c in runs || (stopped && c == nextDone))
  }

  /** Each run has exactly the requests of those that wait for it, and the next one will
      have those of all others. */
  ghost predicate Served(log: seq<Request>, jobs: map<Chan, Job>, nextDone: Chan, next: Job) {
    && (forall c :: c in jobs ==> c < nextDone && jobs[c] == Merged(log, c))
    && (forall i :: 0 <= i < |log| ==> log[i].done in jobs || log[i].done == nextDone)
    && next == Merged(log, nextDone)
  }

  lemma ChannelsNext(active: set<Chan>, closed: set<Chan>, nextDone: Chan, runs: set<Chan>)
    requires Channels(active, closed, None, nextDone, runs, false)
    ensures active == {} && Channels({nextDone}, closed, Some(nextDone), nextDone + 1, runs + {nextDone}, false)
  {
  }

  lemma ServedNext(log: seq<Request>, jobs: map<Chan, Job>, nextDone: Chan, next: Job)
    requires Served(log, jobs, nextDone, next)
    ensures Served(log, jobs[nextDone := next], nextDone + 1, Job(None, None))
  {
    MergedUnused(log, nextDone + 1);
  }

  lemma NextRun(log: seq<Request>, jobs: map<Chan, Job>, done: Chan, job: Job, active: set<Chan>,
                closed: set<Chan>, launched: seq<seq<Tx>>, events: seq<Tx>)
    requires Served(log, jobs, done, job) && Channels(active, closed, None, done, jobs.Keys, false)
    ensures Served(log, jobs[done := job], done + 1, Job(None, None)) && active == {}
    ensures Channels({done}, closed, Some(done), done + 1, jobs[done := job].Keys, false)
    ensures AllEvents(launched + [events]) + [] == AllEvents(launched) + events
  {
    ServedNext(log, jobs, done, job);
    ChannelsNext(active, closed, done, jobs.Keys);
    assert jobs[done := job].Keys == jobs.Keys + {done};
    EventsNext(launched, events);
  }

  class Scheduler {
    var curDone: Option<Chan>
    var nextDone: Chan
    var launchNextRun: bool
    var reset: Option<Reset>
    var dirtyAccounts: Option<set<Address>>
    var queuedEvents: seq<Tx>
    var stopped: bool
    /** The runs that have not ended, and the channels that are closed. */
    var active: set<Chan>
    var closed: set<Chan>
    /** Every request so far, with the channel handed out for it. */
    ghost var log: seq<Request>
    /** The job of every run so far, by the channel it closes when it ends. */
    ghost var jobs: map<Chan, Job>
    ghost var events: seq<Tx>
    ghost var launched: seq<seq<Tx>>

    /** At most one run is active. Each run has exactly the requests of those that wait
        for it; the next one will have those of all others, and is due once there are any.
        Short of the end a channel is closed by its run only. No event is lost. */
    ghost predicate Valid()
      reads this
    {
      && Channels(active, closed, curDone, nextDone, jobs.Keys, stopped)
      && Served(log, jobs, nextDone, Job(reset, dirtyAccounts))
      && (launchNextRun <==> reset.Some? || dirtyAccounts.Some?)
      && events == AllEvents(launched) + queuedEvents
    }

    constructor ()
      ensures Valid() && !stopped && curDone == None && !launchNextRun && log == [] && events == []
    {
      curDone, nextDone, launchNextRun := None, 0, false;
      reset, dirtyAccounts, queuedEvents, stopped := None, None, [], false;
      log, jobs, active, closed, events, launched := [], map[], {}, {}, [], [];
    }

    /** Starts the next run if it is due and none is active. */
    method Launch()
      requires Valid() && !stopped
      modifies this
      ensures Valid() && !stopped && log == old(log) && events == old(events) && closed == old(closed)
      ensures curDone == None ==> !launchNextRun
      ensures jobs == if old(curDone == None && launchNextRun)
          then old(jobs)[old(nextDone) := old(Job(reset, dirtyAccounts))] else old(jobs)
    {
      if curDone == None && launchNextRun {
        StartRun();
      }
    }

    method StartRun()
      requires Valid() && !stopped && curDone == None && launchNextRun
      modifies this
      ensures Valid() && !stopped && log == old(log) && events == old(events) && closed == old(closed)
      ensures curDone == Some(old(nextDone)) && active == {old(nextDone)} && !launchNextRun
      ensures jobs == old(jobs)[old(nextDone) := old(Job(reset, dirtyAccounts))]
    {
      NextRun(log, jobs, nextDone, Job(reset, dirtyAccounts), active, closed, launched, queuedEvents);
      TakeNext();
    }

    /** Hands the collected requests to a run of their own and starts collecting afresh. */
    method TakeNext()
      modifies this`curDone, this`nextDone, this`active, this`jobs, this`launched
      modifies this`launchNextRun, this`reset, this`dirtyAccounts, this`queuedEvents
      ensures curDone == Some(old(nextDone)) && nextDone == old(nextDone) + 1 && active == {old(nextDone)}
      ensures jobs == old(jobs)[old(nextDone) := old(Job(reset, dirtyAccounts))]
      ensures launched == old(launched) + [old(queuedEvents)]
      ensures !launchNextRun && reset == None && dirtyAccounts == None && queuedEvents == []
    {
      jobs, launched := jobs[nextDone := Job(reset, dirtyAccounts)], launched + [queuedEvents];
      active, curDone, nextDone := {nextDone}, Some(nextDone), nextDone + 1;
      launchNextRun, reset, dirtyAccounts, queuedEvents := false, None, None, [];
    }

    /** Merges a reset into the next run. The sender waits for that run. */
    method OnReset(req: Reset) returns (done: Chan)
      requires Valid() && !stopped
      modifies this
      ensures Valid() && !stopped && done == nextDone && done !in closed
      ensures log == old(log) + [ResetTo(req, done)] && jobs == old(jobs) && closed == old(closed)
      ensures events == old(events)
      ensures curDone == old(curDone) && active == old(active)
    {
      done := nextDone;
      LogNext(log, jobs, ResetTo(req, done));
      log := log + [ResetTo(req, done)];
      if reset == None {
        reset := Some(req);
      } else {
        reset := Some(Reset(reset.value.oldHead, req.newHead));
      }
      launchNextRun := true;
    }

    method OnPromote(accounts: set<Address>) returns (done: Chan)
      requires Valid() && !stopped
      modifies this
      ensures Valid() && !stopped && done == nextDone && done !in closed
      ensures log == old(log) + [PromoteAll(accounts, done)] && jobs == old(jobs) && closed == old(closed)
      ensures events == old(events)
      ensures curDone == old(curDone) && active == old(active)
    {
      done := nextDone;
      LogNext(log, jobs, PromoteAll(accounts, done));
      log := log + [PromoteAll(accounts, done)];
      if dirtyAccounts == None {
        dirtyAccounts := Some(accounts);
      } else {
        dirtyAccounts := Some(dirtyAccounts.value + accounts);
      }
      launchNextRun := true;
    }

    method OnEvent(tx: Tx)
      requires Valid() && !stopped
      modifies this
      ensures Valid() && !stopped && events == old(events) + [tx] && log == old(log) && jobs == old(jobs)
      ensures closed == old(closed)
    {
      events := events + [tx];
      queuedEvents := queuedEvents + [tx];
    }

    /** The active run ends and closes its channel. */
    method EndRun()
      requires Valid() && curDone.Some? && curDone.value in active
      modifies this
      ensures Valid() && stopped == old(stopped) && active == {} && closed == old(closed) + {old(curDone).value}
      ensures log == old(log) && jobs == old(jobs) && curDone == old(curDone) && events == old(events)
    {
      closed := closed + {curDone.value};
      active := active - {curDone.value};
    }

    /** The loop learns that the active run has ended. */
    method OnDone()
      requires Valid() && !stopped && curDone.Some? && curDone.value in closed
      modifies this
      ensures Valid() && !stopped && curDone == None && log == old(log) && jobs == old(jobs) && closed == old(closed)
      ensures events == old(events)
    {
      curDone := None;
    }

    /** Waits for the active run and then lets everyone else go, served or not. */
    method OnShutdown()
      requires Valid() && !stopped
      modifies this
      ensures Valid() && stopped && active == {} && jobs == old(jobs) && log == old(log) && events == old(events)
      ensures forall i :: 0 <= i < |log| ==> log[i].done in closed
    {
      if curDone.Some? && curDone.value in active {
        EndRun();
      }
      closed := closed + {nextDone};
      stopped := true;
    }

    /** In any run of the loop, whoever sees a channel closed before the end has been
        served: the run that closed it covers every request waiting for it. */
    method Run(steps: seq<Step>)
      requires Valid() && !stopped
      modifies this
      ensures Valid()
      ensures forall i :: 0 <= i < |log| && log[i].done in closed && !(stopped && log[i].done == nextDone) ==>
        log[i].done in jobs && log[i].done !in active && Covers(jobs[log[i].done], log[i])
      ensures forall c, d :: c in active && d in active ==> c == d
    {
      var k := 0;
      while k < |steps| && !stopped
        invariant Valid()
      {
        Launch();
        match steps[k] {
          case RequestReset(req) => var _ := OnReset(req);
          case RequestPromote(accounts) => var _ := OnPromote(accounts);
          case QueueEvent(tx) => OnEvent(tx);
          case RunEnds => TryEndRun();
          case ReceiveDone => TryOnDone();
          case Shutdown => OnShutdown();
        }
        k := k + 1;
      }
      forall i: nat | i < |log| && log[i].done in jobs ensures Covers(jobs[log[i].done], log[i]) {
        MergedCovers(log, i);
      }
    }

    method TryEndRun()
      requires Valid() && !stopped
      modifies this
      ensures Valid() && !stopped && log == old(log) && jobs == old(jobs)
    {
      if active != {} {
        assert curDone.Some? && curDone.value in active by {
          var c :| c in active;
        }
        EndRun();
      }
    }

    method TryOnDone()
      requires Valid() && !stopped
      modifies this
      ensures Valid() && !stopped && log == old(log) && jobs == old(jobs)
    {
      if curDone.Some? && active == {} {
        OnDone();
      }
    }
  }

  lemma LogNext(log: seq<Request>, jobs: map<Chan, Job>, request: Request)
    requires request.done !in jobs
    ensures forall c :: c in jobs ==> Merged(log + [request], c) == Merged(log, c)
    ensures Merged(log + [request], request.done) ==
      var job := Merged(log, request.done);
      match request
      case ResetTo(reset, _) =>
        job.(reset := Some(if job.reset.None? then reset else Reset(job.reset.value.oldHead, reset.newHead)))
      case PromoteAll(accounts, _) =>
        job.(dirty := Some(if job.dirty.None? then accounts else job.dirty.value + accounts))
  {
  }
}
