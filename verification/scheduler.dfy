/** The bounded admission scheduler. The source's async loop is written here as
    a state machine: the loop head together with the inner fill loop is one
    `Round`; awaiting `Promise.race` and awaiting the pacing timer are phases in
    which requests may `Settle`; the timer firing is a `Delay`. Every dispatched
    request is a fresh promise, so it is identified by its position in
    `dispatched`. */
module Scheduler {
  import opened Page
  import Seqs

  const MaxConcurrent: nat := 5

  /** Where the loop is suspended, if anywhere. */
  datatype Phase =
    | Filling    // at the head of the outer loop, about to run synchronously
    | Racing     // awaiting the first of the active requests to settle
    | Pacing     // awaiting the pacing timer, work still queued
    | Finished   // the outer loop has exited

  /** The loop's state: the links still queued, the ids of the requests in
      flight, every link dispatched so far (request `i` fetches `dispatched[i]`),
      the diffstat fragments attached by settled requests, and the phase. */
  datatype Sched = Sched(queue: seq<Link>, active: set<nat>, dispatched: seq<Link>, attached: map<nat, string>, phase: Phase)

  /** The reply to one diffstat request, with the page parsing abstracted: either
      a response, in which the diffstat fragment was or was not found, or a
      transport failure. */
  datatype Response = Received(fragment: Option<string>) | TransportFailure

  datatype Option<T> = None | Some(value: T)

  datatype Event =
    | Round                                  // run the loop head and the fill loop
    | Settle(id: nat, response: Response)    // a request's promise settles
    | Delay                                  // the pacing timer fires

  /** The skip check at dequeue: a link whose next sibling is a `.diffstat`
      is not fetched again. */
  predicate NeedsFetch(l: Link)
  {
    !l.diffstatNext
  }

  /** The links a full run must dispatch, in queue order. */
  function Pending(links: seq<Link>): seq<Link>
  {
    Seqs.Filter(links, NeedsFetch)
  }

  /** What a settled request attaches to its row: the fragment, when the
      response had one. A transport failure attaches nothing but is still a
      settlement. */
  function Attached(r: Response): Option<string>
  {
    match r
    case Received(fragment) => fragment
    case TransportFailure => None
  }

  /** Request ids already handed out are exactly those below `|dispatched|`. */
  predicate IdsIssued(s: Sched)
  {
    forall id :: id in s.active ==> id < |s.dispatched|
  }

  function Init(links: seq<Link>): Sched
  {
    Sched(links, {}, [], map[], Filling)
  }

  /** The inner loop: dequeue in FIFO order while work is queued and a slot is
      free; a link followed by a diffstat is dropped without using a slot,
      any other is dispatched as a fresh request. */
  function Fill(s: Sched): Sched
    decreases |s.queue|
  {
    if |s.queue| == 0 || |s.active| >= MaxConcurrent then s
    else Fill(Dequeue(s))
  }

  /** One pass of the inner loop body: the head is dropped when a diffstat
      follows it, and dispatched otherwise. */
  function Dequeue(s: Sched): Sched
    requires |s.queue| > 0
  {
    if s.queue[0].diffstatNext then s.(queue := s.queue[1..]) else Dispatch(s)
  }

  /** Dequeue the head and start a request for it. */
  function Dispatch(s: Sched): Sched
    requires |s.queue| > 0
  {
    s.(queue := s.queue[1..], active := s.active + {|s.dispatched|}, dispatched := s.dispatched + [s.queue[0]])
  }

  /** The inner loop never exceeds the cap, and stops only on an empty queue or
      a full active set. */
  lemma {:induction false} FillCap(s: Sched)
    requires |s.active| <= MaxConcurrent
    ensures var r := Fill(s);
      && |r.active| <= MaxConcurrent
      && (r.queue == [] || |r.active| == MaxConcurrent)
    decreases |s.queue|
  {
    if |s.queue| > 0 && |s.active| < MaxConcurrent {
      FillCap(Dequeue(s));
    }
  }

  /** The inner loop consumes a prefix of the queue in FIFO order and dispatches
      exactly that prefix's links that need a fetch, in order; links already
      followed by a diffstat are dropped. */
  lemma FillFifo(s: Sched)
    ensures var r := Fill(s);
      && r.phase == s.phase && r.attached == s.attached
      && |r.queue| <= |s.queue| && r.queue == s.queue[|s.queue| - |r.queue|..]
      && r.dispatched == s.dispatched + Pending(s.queue[..|s.queue| - |r.queue|])
  {
    FillSuffix(s);
    FillDispatched(s);
  }

  /** What is left of the queue is a suffix of it; nothing but the queue, the
      active set and the dispatched links changes. */
  lemma {:induction false} FillSuffix(s: Sched)
    ensures var r := Fill(s);
      && r.phase == s.phase && r.attached == s.attached
      && |r.queue| <= |s.queue| && r.queue == s.queue[|s.queue| - |r.queue|..]
    decreases |s.queue|
  {
    if |s.queue| > 0 && |s.active| < MaxConcurrent {
      var next := Dequeue(s);
      FillSuffix(next);
      SuffixOfTail(s.queue, Fill(next).queue);
    }
  }

  /** A suffix of the tail is a suffix of the whole. */
  lemma SuffixOfTail(q: seq<Link>, r: seq<Link>)
    requires |q| > 0 && |r| <= |q| - 1 && r == q[1..][|q| - 1 - |r|..]
    ensures |r| <= |q| && r == q[|q| - |r|..]
  {
    assert q[1..][|q| - 1 - |r|..] == q[|q| - |r|..];
  }

  lemma {:induction false} FillDispatched(s: Sched)
    ensures var r := Fill(s);
      && |r.queue| <= |s.queue|
      && r.dispatched == s.dispatched + Pending(s.queue[..|s.queue| - |r.queue|])
    decreases |s.queue|
  {
    var r := Fill(s);
    if |s.queue| == 0 || |s.active| >= MaxConcurrent {
      assert s.queue[..|s.queue| - |r.queue|] == [];
    } else {
      var next := Dequeue(s);
      FillDispatched(next);
      DequeueHead(s, next, Fill(next));
    }
  }

  /** Dequeuing the head (dispatching it only when it needs a fetch), then
      consuming part of the tail, is consuming a prefix of the whole queue. */
  lemma DequeueHead(s: Sched, next: Sched, r: Sched)
    requires |s.queue| > 0 && next.queue == s.queue[1..]
    requires next.dispatched == s.dispatched + (if NeedsFetch(s.queue[0]) then [s.queue[0]] else [])
    requires |r.queue| <= |next.queue|
    requires r.dispatched == next.dispatched + Pending(next.queue[..|next.queue| - |r.queue|])
    ensures |r.queue| <= |s.queue|
    ensures r.dispatched == s.dispatched + Pending(s.queue[..|s.queue| - |r.queue|])
  {
    ConsumeHead(s.queue, s.dispatched, r.dispatched, |r.queue|);
  }

  /** Consuming the head of `q`, then `|q| - 1 - left` links of its tail,
      dispatches what consuming `|q| - left` links of `q` dispatches. */
  lemma ConsumeHead(q: seq<Link>, d: seq<Link>, rd: seq<Link>, left: nat)
    requires left < |q|
    requires rd == (d + (if NeedsFetch(q[0]) then [q[0]] else [])) + Pending(q[1..][..|q| - 1 - left])
    ensures rd == d + Pending(q[..|q| - left])
  {
    PendingPrefix(q, left);
  }

  /** Each dispatch adds one fresh request id to the active set and a dropped
      link adds none, so the slots used grow by exactly the number dispatched. */
  lemma {:induction false} FillFreshIds(s: Sched)
    requires IdsIssued(s)
    ensures var r := Fill(s);
      && IdsIssued(r)
      && |s.dispatched| <= |r.dispatched| && s.active <= r.active
      && (forall id :: id in r.active - s.active ==> |s.dispatched| <= id < |r.dispatched|)
      && (forall id :: |s.dispatched| <= id < |r.dispatched| ==> id in r.active)
      && |r.active| == |s.active| + (|r.dispatched| - |s.dispatched|)
    decreases |s.queue|
  {
    if |s.queue| > 0 && |s.active| < MaxConcurrent {
      if s.queue[0].diffstatNext {
        FillFreshIds(Dequeue(s));
      } else {
        var next := Dequeue(s);
        var r := Fill(next);
        assert |s.dispatched| !in s.active;
        FillFreshIds(next);
        forall id | id in r.active - s.active
          ensures |s.dispatched| <= id < |r.dispatched|
        {
          if id !in next.active {
            assert id in r.active - next.active;
          }
        }
      }
    }
  }

  /** Consuming `|q| - left` links of `q` is consuming its head, then
      `|q| - 1 - left` links of its tail. */
  lemma PendingPrefix(q: seq<Link>, left: nat)
    requires left < |q|
    ensures Pending(q[..|q| - left]) == (if NeedsFetch(q[0]) then [q[0]] else []) + Pending(q[1..][..|q| - 1 - left])
  {
    var rest := q[1..][..|q| - 1 - left];
    assert q[..|q| - left] == [q[0]] + rest;
    Seqs.FilterAppend([q[0]], rest, NeedsFetch);
    assert [q[0]][1..] == [];
  }

  /** One transition of the loop, or `None` when the event cannot happen in `s`. */
  function Step(s: Sched, e: Event): Option<Sched>
  {
    match e
    case Round =>
      if s.phase != Filling then None
      else if s.queue == [] && s.active == {} then Some(s.(phase := Finished))
      else Some(Refill(s))
    case Settle(id, response) =>
      if (s.phase == Racing || s.phase == Pacing) && id in s.active then
        var attached := match Attached(response)
          case Some(fragment) => s.attached[id := fragment]
          case None => s.attached;
        // a settlement ends the race; the pacing delay follows only if work remains
        Some(s.(active := s.active - {id}, attached := attached,
                phase := if s.phase == Racing && s.queue == [] then Filling else Pacing))
      else None
    case Delay =>
      if s.phase == Pacing then Some(s.(phase := Filling)) else None
  }

  /** One pass of the loop body that does not exit: the inner fill loop, then
      the wait it chooses. */
  function Refill(s: Sched): Sched
  {
    var f := Fill(s);
    // await the race only when something is in flight; pace only when work remains
    f.(phase := if f.active != {} then Racing else if f.queue != [] then Pacing else Filling)
  }

  /** Applies `events` in order; `None` if one of them cannot happen. */
  function Run(s: Sched, events: seq<Event>): Option<Sched>
    decreases |events|
  {
    if |events| == 0 then Some(s)
    else match Step(s, events[0])
      case None => None
      case Some(t) => Run(t, events[1..])
  }

  /** The invariant of a run that started from `Init(links)`. */
  ghost predicate Inv(links: seq<Link>, s: Sched)
  {
    && Capped(s)
    && Consumed(links, s)
    && SettledOnly(s)
    && PhaseOk(s)
  }

  /** The concurrency cap, over ids already issued. */
  predicate Capped(s: Sched)
  {
    |s.active| <= MaxConcurrent && IdsIssued(s)
  }

  /** FIFO: the queue is what remains of `links` after a consumed prefix, and
      the dispatched links are that prefix's links that need a fetch, in order. */
  ghost predicate Consumed(links: seq<Link>, s: Sched)
  {
    && |s.queue| <= |links| && s.queue == links[|links| - |s.queue|..]
    && s.dispatched == Pending(links[..|links| - |s.queue|])
  }

  /** Fragments are attached only by requests that have settled. */
  ghost predicate SettledOnly(s: Sched)
  {
    forall id :: id in s.attached ==> id < |s.dispatched| && id !in s.active
  }

  /** The phases' own conditions. */
  predicate PhaseOk(s: Sched)
  {
    && (s.phase == Filling ==> |s.active| < MaxConcurrent)
    && (s.phase == Racing ==> s.active != {})
    && (s.phase == Pacing ==> s.queue != [] && |s.active| < MaxConcurrent)
    && (s.phase == Finished ==> s.queue == [] && s.active == {})
  }

  function Rank(p: Phase): nat
  {
    match p
    case Pacing => 2
    case Filling => 1
    case Racing => 0
    case Finished => 0
  }

  /** Decreases on every transition: settling shrinks the active set, dropping
      a link shrinks the queue, and the remaining transitions move down `Rank`. */
  function Measure(s: Sched): nat
  {
    3 * (|s.queue| + |s.active|) + Rank(s.phase)
  }

  lemma InitInv(links: seq<Link>)
    ensures Inv(links, Init(links))
  {
    assert links[..|links| - |links|] == [];
  }

  /** Every transition keeps the invariant (in particular the cap on requests in
      flight) and strictly decreases the measure. */
  lemma StepInv(links: seq<Link>, s: Sched, e: Event)
    requires Inv(links, s) && Step(s, e).Some?
    ensures Inv(links, Step(s, e).value)
    ensures Measure(Step(s, e).value) < Measure(s)
  {
    if e.Round? && !(s.queue == [] && s.active == {}) {
      RoundInv(links, s);
    }
  }

  lemma RoundInv(links: seq<Link>, s: Sched)
    requires Inv(links, s) && s.phase == Filling && !(s.queue == [] && s.active == {})
    ensures Inv(links, Refill(s))
    ensures Measure(Refill(s)) < Measure(s)
  {
    FillCap(s);
    FillFreshIds(s);
    RoundConsumed(links, s);
    RoundSettledOnly(s);
    FillFifo(s);
    RefillInv(links, s, Fill(s));
  }

  /** The wait chosen after a fill `f` of `s` keeps the invariant, and the fill
      itself never adds work: each dispatch moves one link from the queue to
      the active set, and each drop removes one. */
  lemma RefillInv(links: seq<Link>, s: Sched, f: Sched)
    requires s.phase == Filling && !(s.queue == [] && s.active == {})
    requires Capped(f) && Consumed(links, f) && SettledOnly(f) && f.phase == Filling
    requires f.queue == [] || |f.active| == MaxConcurrent
    requires |f.queue| <= |s.queue| && f.queue == s.queue[|s.queue| - |f.queue|..]
    requires f.dispatched == s.dispatched + Pending(s.queue[..|s.queue| - |f.queue|])
    requires |s.dispatched| <= |f.dispatched|
    requires |f.active| == |s.active| + (|f.dispatched| - |s.dispatched|)
    ensures var t := f.(phase := if f.active != {} then Racing else if f.queue != [] then Pacing else Filling);
      Inv(links, t) && Measure(t) < Measure(s)
  {
    assert |Pending(s.queue[..|s.queue| - |f.queue|])| <= |s.queue| - |f.queue|;
  }

  lemma RoundConsumed(links: seq<Link>, s: Sched)
    requires Consumed(links, s)
    ensures Consumed(links, Fill(s))
  {
    FillFifo(s);
    ConsumedAfter(links, s, Fill(s));
  }

  lemma ConsumedAfter(links: seq<Link>, s: Sched, f: Sched)
    requires Consumed(links, s)
    requires |f.queue| <= |s.queue| && f.queue == s.queue[|s.queue| - |f.queue|..]
    requires f.dispatched == s.dispatched + Pending(s.queue[..|s.queue| - |f.queue|])
    ensures Consumed(links, f)
  {
    ConsumeMore(links, s.queue, s.dispatched, f.queue, f.dispatched);
  }

  /** Consuming more of the queue keeps the dispatched links equal to the
      pending links of everything consumed so far. */
  lemma ConsumeMore(links: seq<Link>, q: seq<Link>, d: seq<Link>, q': seq<Link>, d': seq<Link>)
    requires |q| <= |links| && q == links[|links| - |q|..]
    requires d == Pending(links[..|links| - |q|])
    requires |q'| <= |q| && q' == q[|q| - |q'|..]
    requires d' == d + Pending(q[..|q| - |q'|])
    ensures |q'| <= |links| && q' == links[|links| - |q'|..]
    ensures d' == Pending(links[..|links| - |q'|])
  {
    assert links[..|links| - |q'|] == links[..|links| - |q|] + q[..|q| - |q'|];
    Seqs.FilterAppend(links[..|links| - |q|], q[..|q| - |q'|], NeedsFetch);
  }

  lemma RoundSettledOnly(s: Sched)
    requires IdsIssued(s) && SettledOnly(s)
    ensures SettledOnly(Fill(s))
  {
    var f := Fill(s);
    FillFifo(s);
    FillFreshIds(s);
    forall id | id in f.attached
      ensures id < |f.dispatched| && id !in f.active
    {
      assert id < |s.dispatched| && id !in s.active;
      assert id !in f.active - s.active;
    }
  }

  /** Exactly the states that are not `Finished` can move on: the loop exits
      only once the queue and the active set are both empty, and until then
      some event is possible (a request in flight can always settle, since a
      request settles on success and on failure alike). */
  lemma Progress(links: seq<Link>, s: Sched)
    requires Inv(links, s)
    ensures (exists e :: Step(s, e).Some?) <==> s.phase != Finished
    ensures s.phase == Finished <==> s.queue == [] && s.active == {} && !Step(s, Round).Some?
  {
    match s.phase
    case Filling =>
      assert Step(s, Round).Some?;
    case Racing =>
      var id :| id in s.active;
      assert Step(s, Settle(id, TransportFailure)).Some?;
    case Pacing =>
      assert Step(s, Delay).Some?;
    case Finished =>
  }

  /** A request that settles frees its slot whatever the response: a transport
      failure or a page without a diffstat attaches nothing, a fragment is
      attached to that request's link, and the queue and the dispatched links
      are untouched, so the remaining work goes on. */
  lemma SettleFreesSlot(links: seq<Link>, s: Sched, id: nat, response: Response)
    requires Inv(links, s) && (s.phase == Racing || s.phase == Pacing) && id in s.active
    ensures Step(s, Settle(id, response)).Some?
    ensures var t := Step(s, Settle(id, response)).value;
      && t.active == s.active - {id} && |t.active| == |s.active| - 1
      && t.queue == s.queue && t.dispatched == s.dispatched
      && (id in t.attached <==> Attached(response).Some?)
      && (id in t.attached ==> t.attached[id] == Attached(response).value)
      && (forall other :: other != id ==> (other in t.attached <==> other in s.attached))
  {
    assert id !in s.attached;
  }

  /** The pacing delay is taken only while links are still queued: never after
      the last link has been dequeued. */
  lemma DelayOnlyWithQueuedWork(links: seq<Link>, s: Sched)
    requires Inv(links, s) && Step(s, Delay).Some?
    ensures s.queue != [] && Step(s, Delay).value.queue == s.queue
  {
  }

  /** When the loop has exited, every link that needed a fetch was dispatched
      exactly once, in queue order, and no link followed by a diffstat was. */
  lemma FinishedDispatchesPending(links: seq<Link>, s: Sched)
    requires Inv(links, s) && s.phase == Finished
    ensures s.dispatched == Pending(links)
    ensures forall l :: l in s.dispatched <==> l in links && !l.diffstatNext
    ensures |s.dispatched| == Seqs.Count(links, NeedsFetch)
  {
    assert links[..|links| - |s.queue|] == links;
    Seqs.FilterMembers(links, NeedsFetch);
    Seqs.FilterLength(links, NeedsFetch);
  }

  /** Any sequence of events that can happen keeps the invariant, and its length
      is bounded by the measure: whatever the settlement order, the loop cannot
      run forever. */
  lemma {:induction false} RunInv(links: seq<Link>, s: Sched, events: seq<Event>)
    requires Inv(links, s) && Run(s, events).Some?
    ensures Inv(links, Run(s, events).value)
    ensures |events| + Measure(Run(s, events).value) <= Measure(s)
    decreases |events|
  {
    if |events| > 0 {
      StepInv(links, s, events[0]);
      RunInv(links, Step(s, events[0]).value, events[1..]);
    }
  }

  lemma {:induction false} RunSnoc(s: Sched, events: seq<Event>, e: Event)
    requires Run(s, events).Some? && Step(Run(s, events).value, e).Some?
    ensures Run(s, events + [e]) == Step(Run(s, events).value, e)
    decreases |events|
  {
    if |events| == 0 {
      assert events + [e] == [e];
    } else {
      assert (events + [e])[1..] == events[1..] + [e];
      RunSnoc(Step(s, events[0]).value, events[1..], e);
    }
  }

  predicate IsDelay(e: Event)
  {
    e.Delay?
  }

  /** Pacing credit: each queued link pays for at most one delay, and a state
      about to pace has its delay already counted. */
  function DelayCredit(s: Sched): nat
  {
    |s.queue| + (if s.phase == Pacing || (s.phase == Racing && s.queue != []) then 1 else 0)
  }

  lemma StepDelayCredit(links: seq<Link>, s: Sched, e: Event)
    requires Inv(links, s) && Step(s, e).Some?
    ensures DelayCredit(Step(s, e).value) + (if IsDelay(e) then 1 else 0) <= DelayCredit(s)
  {
    if e.Round? && s.queue != [] {
      // a free slot and a queued link: the round dequeues at least one link
      FillFifo(s);
      FillFifo(Dequeue(s));
      assert |Fill(s).queue| < |s.queue|;
    }
  }

  /** Over any run, the number of pacing delays is at most the number of links
      that were queued at its start. */
  lemma {:induction false} RunDelays(links: seq<Link>, s: Sched, events: seq<Event>)
    requires Inv(links, s) && Run(s, events).Some?
    ensures Seqs.Count(events, IsDelay) + DelayCredit(Run(s, events).value) <= DelayCredit(s)
    decreases |events|
  {
    if |events| > 0 {
      StepDelayCredit(links, s, events[0]);
      StepInv(links, s, events[0]);
      RunDelays(links, Step(s, events[0]).value, events[1..]);
    }
  }

  /** Runs the loop to completion. Which in-flight request settles first is left
      open (any active request may be chosen), and `respond` stands for the
      network: the reply request `i` receives. */
  method Drain(links: seq<Link>, respond: nat -> Response) returns (final: Sched, events: seq<Event>)
    ensures Run(Init(links), events) == Some(final)
    ensures final.phase == Finished && final.queue == [] && final.active == {}
    ensures final.dispatched == Pending(links)
    ensures |events| <= 3 * |links| + 1
    ensures Seqs.Count(events, IsDelay) <= |links|
    // every request's fragment, and only those, ends up attached
    ensures forall id: nat :: id in final.attached <==> id < |final.dispatched| && Attached(respond(id)).Some?
    ensures forall id :: id in final.attached ==> Attached(respond(id)) == Some(final.attached[id])
  {
    var s := Init(links);
    events := [];
    InitInv(links);
    while s.phase != Finished
      invariant Inv(links, s)
      invariant Run(Init(links), events) == Some(s)
      invariant |events| + Measure(s) <= Measure(Init(links))
      invariant Seqs.Count(events, IsDelay) + DelayCredit(s) <= |links|
      invariant AttachedAgrees(s, respond)
      decreases Measure(s)
    {
      var e: Event;
      if s.phase == Filling {
        e := Round;
      } else if s.phase == Racing {
        var id :| id in s.active;
        e := Settle(id, respond(id));
      } else {
        e := Delay;
      }
      var t := Step(s, e).value;
      StepInv(links, s, e);
      StepDelayCredit(links, s, e);
      RunSnoc(Init(links), events, e);
      SeqsCountSnoc(events, e);
      StepAttached(links, s, e, respond);
      events := events + [e];
      s := t;
    }
    final := s;
    FinishedDispatchesPending(links, final);
  }

  /** The fragments attached so far are exactly those of the settled requests
      whose reply carried one. */
  ghost predicate AttachedAgrees(s: Sched, respond: nat -> Response)
  {
    && (forall id: nat :: id < |s.dispatched| && id !in s.active ==>
         (id in s.attached <==> Attached(respond(id)).Some?))
    && (forall id :: id in s.attached ==> Attached(respond(id)) == Some(s.attached[id]))
  }

  lemma StepAttached(links: seq<Link>, s: Sched, e: Event, respond: nat -> Response)
    requires Inv(links, s) && Step(s, e).Some? && AttachedAgrees(s, respond)
    requires e.Settle? ==> e.response == respond(e.id)
    ensures AttachedAgrees(Step(s, e).value, respond)
  {
    if e.Round? && !(s.queue == [] && s.active == {}) {
      FillFreshIds(s);
      FillFifo(s);
      var t := Step(s, e).value;
      forall id: nat | id < |t.dispatched| && id !in t.active
        ensures id in t.attached <==> Attached(respond(id)).Some?
      {
        assert id < |s.dispatched|;
      }
    }
  }

  lemma SeqsCountSnoc(events: seq<Event>, e: Event)
    ensures Seqs.Count(events + [e], IsDelay) == Seqs.Count(events, IsDelay) + (if IsDelay(e) then 1 else 0)
  {
    Seqs.CountAppend(events, [e], IsDelay);
  }
}
