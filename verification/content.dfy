/** How the content script connects its two engines: a poll that ends `Ready`
    with at least one link hands those links to the scheduler; every other
    outcome starts nothing. */
module Content {
  import opened Page
  import Poller
  import Scheduler
  import Seqs

  /** The scheduler run a poll outcome starts, if any. */
  function Launch(o: Poller.Outcome): (r: Scheduler.Option<Scheduler.Sched>)
    ensures r.Some? <==> o.Ready? && |o.links| > 0
    ensures r.Some? ==> r.value.queue == o.links && r.value.active == {} && r.value.dispatched == []
  {
    if o.Ready? && |o.links| > 0 then Scheduler.Some(Scheduler.Init(o.links)) else Scheduler.None
  }

  /** While the rows never appear, no scheduler run is started, so no diffstat
      is ever requested. */
  lemma EmptyRowsNeverFetch(retryCount: nat, startTime: int, attempts: seq<Poller.Attempt>)
    requires forall i :: 0 <= i < |attempts| ==> attempts[i].rows == []
    ensures Launch(Poller.PollRun(retryCount, startTime, attempts).outcome).None?
  {
    Poller.EmptyRowsBoundQueries(retryCount, startTime, attempts);
  }

  /** End to end: once rows are found, any completed scheduler run has requested
      the diffstat of exactly the valid rows whose link was not followed by a
      diffstat after collection, each once, in row order. In particular every
      valid row that had no Copy button yet is fetched, whatever followed its
      link: the button inserted right after the link hides any diffstat from
      the skip check. */
  lemma ReadyFetchesEachMissingDiffstat(retryCount: nat, startTime: int, now: int, rows: seq<Row>,
                                       events: seq<Scheduler.Event>)
    requires Poller.RowsQueried(retryCount, startTime, now) && |rows| > 0
    requires var o := Poller.PollStep(retryCount, startTime, now, rows);
      Launch(o).Some? && Scheduler.Run(Launch(o).value, events).Some?
    requires var o := Poller.PollStep(retryCount, startTime, now, rows);
      Scheduler.Run(Launch(o).value, events).value.phase == Scheduler.Finished
    ensures var o := Poller.PollStep(retryCount, startTime, now, rows);
      var t := Scheduler.Run(Launch(o).value, events).value;
      && t.dispatched == Scheduler.Pending(Poller.CollectLinks(rows))
      && (forall l :: l in t.dispatched <==>
            exists i :: 0 <= i < |rows| && HasValidLink(rows[i])
                        && !(rows[i].hasCopyButton && rows[i].diffstatFollows) && LinkOf(rows[i]) == l)
      && (forall i :: 0 <= i < |rows| && HasValidLink(rows[i]) && !rows[i].hasCopyButton ==>
            LinkOf(rows[i]) in t.dispatched)
  {
    var links := Poller.CollectLinks(rows);
    var s := Scheduler.Init(links);
    Scheduler.InitInv(links);
    Scheduler.RunInv(links, s, events);
    var t := Scheduler.Run(s, events).value;
    Scheduler.FinishedDispatchesPending(links, t);
    forall l
      ensures l in t.dispatched <==>
        exists i :: 0 <= i < |rows| && HasValidLink(rows[i])
                    && !(rows[i].hasCopyButton && rows[i].diffstatFollows) && LinkOf(rows[i]) == l
    {
      Poller.CollectLinksExact(rows, l);
    }
    forall i | 0 <= i < |rows| && HasValidLink(rows[i]) && !rows[i].hasCopyButton
      ensures LinkOf(rows[i]) in t.dispatched
    {
      Poller.CollectLinksExact(rows, LinkOf(rows[i]));
    }
  }

  /** Rows absent on the first three invocations (each `RetryInterval` apart)
      and seven valid rows on the fourth: the poll is ready on the fourth
      invocation, about 1500 ms in, with a queue of seven links. */
  lemma ReadyOnFourthAttempt(t0: int)
    ensures var row := Row(true, "/acme/app/pull/7", "Fix login", false, false);
      var rows := [row, row, row, row, row, row, row];
      var attempts := [Poller.Attempt(t0, []), Poller.Attempt(t0 + Poller.RetryInterval, []),
                       Poller.Attempt(t0 + 2 * Poller.RetryInterval, []),
                       Poller.Attempt(t0 + 3 * Poller.RetryInterval, rows)];
      var t := Poller.PollRun(0, t0, attempts);
      t.queries == 4 && t.outcome.Ready? && |t.outcome.links| == 7
  {
    var row := Row(true, "/acme/app/pull/7", "Fix login", false, false);
    var rows := [row, row, row, row, row, row, row];
    var attempts := [Poller.Attempt(t0, []), Poller.Attempt(t0 + Poller.RetryInterval, []),
                     Poller.Attempt(t0 + 2 * Poller.RetryInterval, []),
                     Poller.Attempt(t0 + 3 * Poller.RetryInterval, rows)];
    Poller.RowsAppearThenReady(0, t0, attempts);
    Poller.CollectLinksCount(rows);
    Seqs.CountAll(rows, HasValidLink);
  }
}
