/** The readiness poller: a self-rescheduling attempt that waits for the issue
    rows to be rendered, gives up on a retry or a time budget, and otherwise
    collects the rows' valid links. Each scheduled invocation is one `PollStep`;
    the clock reading and the rows found are inputs. */
module Poller {
  import opened Page
  import Seqs

  const RetryInterval: int := 500
  const MaxRetries: nat := 20
  const MaxWaitTime: int := 10000

  /** What one invocation decides. `Retry` means another invocation has been
      scheduled with that retry count and start time. */
  datatype Outcome =
    | ExhaustedRetries
    | ExhaustedTime
    | Retry(retryCount: nat, startTime: int)
    | Ready(links: seq<Link>)

  /** Both budgets leave room, so the invocation reaches the row query. */
  predicate RowsQueried(retryCount: nat, startTime: int, now: int)
  {
    retryCount < MaxRetries && now - startTime < MaxWaitTime
  }

  /** The links of the rows that pass the validity guard, in row order. */
  function CollectLinks(rows: seq<Row>): seq<Link>
  {
    Seqs.Map(Seqs.Filter(rows, HasValidLink), LinkOf)
  }

  /** One invocation of the poller at clock reading `now`, seeing `rows` if it
      gets as far as querying them. */
  function PollStep(retryCount: nat, startTime: int, now: int, rows: seq<Row>): (o: Outcome)
    // the retry budget is checked first, whatever the clock says
    ensures o.ExhaustedRetries? <==> retryCount >= MaxRetries
    // the time budget only matters while retries remain
    ensures o.ExhaustedTime? <==> retryCount < MaxRetries && now - startTime >= MaxWaitTime
    // rows influence the outcome only once both budgets have room
    ensures !RowsQueried(retryCount, startTime, now) ==> o.ExhaustedRetries? || o.ExhaustedTime?
    ensures o.Retry? <==> RowsQueried(retryCount, startTime, now) && |rows| == 0
    ensures o.Retry? ==> o.retryCount == retryCount + 1 && o.startTime == startTime
    ensures o.Ready? ==> |rows| > 0 && |o.links| <= |rows|
    ensures o.Ready? ==> forall i :: 0 <= i < |o.links| ==> o.links[i].href != "" && o.links[i].text != ""
  {
    if retryCount >= MaxRetries then ExhaustedRetries
    else if now - startTime >= MaxWaitTime then ExhaustedTime
    else if |rows| == 0 then Retry(retryCount + 1, startTime)
    else
      Seqs.FilterMembers(rows, HasValidLink);
      Ready(CollectLinks(rows))
  }

  /** A link is collected exactly when some row carries it past the validity guard. */
  lemma CollectLinksExact(rows: seq<Row>, l: Link)
    ensures l in CollectLinks(rows) <==> exists i :: 0 <= i < |rows| && HasValidLink(rows[i]) && LinkOf(rows[i]) == l
  {
    var kept := Seqs.Filter(rows, HasValidLink);
    Seqs.FilterMembers(rows, HasValidLink);
    Seqs.MapMembers(kept, LinkOf, l);
    if exists i :: 0 <= i < |rows| && HasValidLink(rows[i]) && LinkOf(rows[i]) == l {
      var i :| 0 <= i < |rows| && HasValidLink(rows[i]) && LinkOf(rows[i]) == l;
      assert rows[i] in kept;
    }
  }

  /** Rows are handled independently and in order: an invalid row is skipped
      without disturbing the links collected before or after it. */
  lemma CollectLinksAppend(a: seq<Row>, b: seq<Row>)
    ensures CollectLinks(a + b) == CollectLinks(a) + CollectLinks(b)
  {
    Seqs.FilterAppend(a, b, HasValidLink);
    Seqs.MapAppend(Seqs.Filter(a, HasValidLink), Seqs.Filter(b, HasValidLink), LinkOf);
  }

  /** One link per valid row. */
  lemma CollectLinksCount(rows: seq<Row>)
    ensures |CollectLinks(rows)| == Seqs.Count(rows, HasValidLink)
  {
    Seqs.FilterLength(rows, HasValidLink);
  }

  /** One scheduled invocation: when it fires and what the row query would return. */
  datatype Attempt = Attempt(now: int, rows: seq<Row>)

  /** The result of a chain of invocations: how many reached the row query, and
      the last outcome (a `Retry` when the chain is still pending). */
  datatype PollTrace = PollTrace(queries: nat, outcome: Outcome)

  /** Runs the self-rescheduling chain over the given invocations, stopping at the
      first outcome that schedules nothing further. */
  function PollRun(retryCount: nat, startTime: int, attempts: seq<Attempt>): (t: PollTrace)
    ensures t.queries <= |attempts|
    decreases |attempts|
  {
    if |attempts| == 0 then PollTrace(0, Retry(retryCount, startTime))
    else
      var a := attempts[0];
      var o := PollStep(retryCount, startTime, a.now, a.rows);
      var q := if RowsQueried(retryCount, startTime, a.now) then 1 else 0;
      if o.Retry? then
        var t := PollRun(o.retryCount, o.startTime, attempts[1..]);
        PollTrace(q + t.queries, t.outcome)
      else
        PollTrace(q, o)
  }

  /** A chain still pending has kept its start time, counted one retry per
      invocation, queried the rows every time and found none. */
  lemma {:induction false} PollRunThreadsState(retryCount: nat, startTime: int, attempts: seq<Attempt>)
    ensures var t := PollRun(retryCount, startTime, attempts);
      t.outcome.Retry? ==>
        && t.outcome.startTime == startTime
        && t.outcome.retryCount == retryCount + |attempts|
        && t.queries == |attempts|
        && forall i :: 0 <= i < |attempts| ==> attempts[i].rows == []
    decreases |attempts|
  {
    if |attempts| > 0 {
      var a := attempts[0];
      var o := PollStep(retryCount, startTime, a.now, a.rows);
      if o.Retry? {
        PollRunThreadsState(o.retryCount, o.startTime, attempts[1..]);
        var t := PollRun(retryCount, startTime, attempts);
        if t.outcome.Retry? {
          forall i | 0 <= i < |attempts|
            ensures attempts[i].rows == []
          {
            if i > 0 {
              assert attempts[i] == attempts[1..][i - 1];
            }
          }
        }
      }
    }
  }

  /** Rows that never appear: at most `MaxRetries` row queries in all, and the
      chain never becomes `Ready`, so no link is collected and nothing is fetched. */
  lemma {:induction false} EmptyRowsBoundQueries(retryCount: nat, startTime: int, attempts: seq<Attempt>)
    requires forall i :: 0 <= i < |attempts| ==> attempts[i].rows == []
    ensures var t := PollRun(retryCount, startTime, attempts);
      && !t.outcome.Ready?
      && t.queries <= (if retryCount >= MaxRetries then 0 else MaxRetries - retryCount)
    decreases |attempts|
  {
    if |attempts| > 0 {
      var a := attempts[0];
      var o := PollStep(retryCount, startTime, a.now, a.rows);
      if o.Retry? {
        assert forall i :: 0 <= i < |attempts[1..]| ==> attempts[1..][i] == attempts[i + 1];
        EmptyRowsBoundQueries(o.retryCount, o.startTime, attempts[1..]);
      }
    }
  }

  /** Rows that never appear: once more invocations have fired than the retry
      budget allows, the chain has stopped on one of the two budgets. */
  lemma EmptyRowsGiveUp(retryCount: nat, startTime: int, attempts: seq<Attempt>)
    requires forall i :: 0 <= i < |attempts| ==> attempts[i].rows == []
    requires |attempts| > 0 && retryCount + |attempts| > MaxRetries
    ensures var t := PollRun(retryCount, startTime, attempts);
      t.outcome.ExhaustedRetries? || t.outcome.ExhaustedTime?
  {
    EmptyRowsBoundQueries(retryCount, startTime, attempts);
    PollRunThreadsState(retryCount, startTime, attempts);
  }

  /** Rows that never appear: an invocation at or after the time budget ends the
      chain there, whatever retries remain, and no later invocation queries rows. */
  lemma {:induction false} EmptyRowsStopOnTimeout(retryCount: nat, startTime: int, attempts: seq<Attempt>, k: nat)
    requires forall i :: 0 <= i < |attempts| ==> attempts[i].rows == []
    requires k < |attempts| && attempts[k].now - startTime >= MaxWaitTime
    ensures var t := PollRun(retryCount, startTime, attempts);
      && (t.outcome.ExhaustedRetries? || t.outcome.ExhaustedTime?)
      && t.queries <= k
    decreases k
  {
    var a := attempts[0];
    var o := PollStep(retryCount, startTime, a.now, a.rows);
    if o.Retry? {
      assert k > 0;
      assert forall i :: 0 <= i < |attempts[1..]| ==> attempts[1..][i] == attempts[i + 1];
      EmptyRowsStopOnTimeout(o.retryCount, o.startTime, attempts[1..], k - 1);
    }
  }

  /** Rows that appear on a later invocation within both budgets: the chain ends
      `Ready` with that invocation's links, having queried rows once per invocation. */
  lemma {:induction false} RowsAppearThenReady(retryCount: nat, startTime: int, attempts: seq<Attempt>)
    requires |attempts| > 0
    requires forall i :: 0 <= i < |attempts| - 1 ==> attempts[i].rows == []
    requires forall i :: 0 <= i < |attempts| ==> attempts[i].now - startTime < MaxWaitTime
    requires retryCount + |attempts| <= MaxRetries
    requires attempts[|attempts| - 1].rows != []
    ensures PollRun(retryCount, startTime, attempts)
      == PollTrace(|attempts|, Ready(CollectLinks(attempts[|attempts| - 1].rows)))
    decreases |attempts|
  {
    if |attempts| > 1 {
      assert forall i :: 0 <= i < |attempts[1..]| ==> attempts[1..][i] == attempts[i + 1];
      RowsAppearThenReady(retryCount + 1, startTime, attempts[1..]);
    }
  }
}
