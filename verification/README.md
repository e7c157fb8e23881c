# GitHub review helper content script, modelled in Dafny

The content script of this browser extension enriches GitHub's pull-request
list. It has two engines and one small text computation:

- a **readiness poller** (`pollVisibility`) that re-schedules itself until the
  issue rows have been rendered, giving up after 20 invocations or 10 seconds,
  and then collects each row's pull-request link;
- a **bounded admission scheduler** (`processDiffstatsWithConcurrency`) that
  requests each link's diffstat with at most 5 requests in flight, awaits the
  first request to settle, then waits 200 ms while links remain queued before
  refilling the freed slots, and skips a link whose next sibling is already a
  `.diffstat`;
- the **clipboard merge** behind each row's Copy button (`handleCopyClick`),
  which appends the clicked link to a clipboard that already holds this
  site's pull-request links, or replaces the clipboard otherwise.

Modules:

- `Seqs` (`seqs.dfy`): order-preserving `Filter`, `Count`, `Map`, and their
  append lemmas.
- `Page` (`page.dfy`): a row as the facts the code branches on. These are
  whether a `.js-navigation-open` link exists, its `href`, its text, whether
  the row already holds a Copy button (`.btn.ml-2`), and whether a `.diffstat`
  is the link's immediate next sibling. `Link` is the work item, carrying the
  next-sibling fact as it stands after the poller has added the Copy button.
- `Poller` (`poller.dfy`): `PollStep` is one invocation, with the clock
  reading and the rows as inputs. `PollRun` chains invocations the way the
  source's `setTimeout` re-scheduling does.
- `Scheduler` (`scheduler.dfy`): the async loop as a state machine over
  `(queue, active, dispatched, attached, phase)`. `Round` is the loop head
  plus the inner fill loop. `Settle(id, response)` is one request's promise
  settling. `Delay` is the pacing timer firing. A request is identified by
  its index in `dispatched`, because every dispatch creates a fresh promise.
  `Drain` runs the machine to completion. Which active request settles first
  is an arbitrary choice, and each request's reply is a parameter.
- `Clipboard` (`clipboard.dfy`): JavaScript's `split('\n')`, `join('\n')`
  and `includes`, and `Merge`.
- `Content` (`content.js` glue, `content.dfy`): a poll outcome starts the
  scheduler only when it is `Ready` with at least one link. Also holds the
  end-to-end property.

The poller collects every row with a valid link (js/content.js:41-63). A link
whose next sibling is already a diffstat is skipped later, when it is dequeued
(js/content.js:81-83). The poller inserts a Copy button directly after the link
of every row that has none yet (js/content.js:57-59, 124), so on such a row the
skip check sees the button and the link is always fetched.

## Model

| member | source | states |
|---|---|---|
| Poller.PollStep | js/content.js:18-37 | The retry budget (20) is checked before the clock: `ExhaustedRetries` exactly when the budget is used up. `ExhaustedTime` exactly when retries remain and at least 10000 ms have elapsed. Rows are looked at only when both budgets have room. No rows gives `Retry` with the count plus one and the same start time. Collected links always have a non-empty href and text. |
| Poller.CollectLinksExact | js/content.js:41-63 | A link is collected if and only if some row has a link with non-empty href and non-empty text that yields it. |
| Poller.CollectLinksAppend | js/content.js:41-63 | Rows are handled independently and in order: the links of `a + b` are the links of `a` followed by those of `b`, so an invalid row is skipped without affecting any other row. |
| Poller.CollectLinksCount | js/content.js:41-63 | Exactly one link per valid row. |
| Poller.PollRunThreadsState | js/content.js:32-37 | While the chain is still pending, every invocation queried the rows and found none. The start time is carried unchanged and the retry count grew by one per invocation. |
| Poller.EmptyRowsBoundQueries | js/content.js:18-37 | If rows never appear, at most `MaxRetries - retryCount` row queries happen and the chain never becomes `Ready`. |
| Poller.EmptyRowsGiveUp | js/content.js:18-30 | If rows never appear, once more invocations have fired than the retry budget allows, the chain has stopped on one of the two exhaustion outcomes. |
| Poller.EmptyRowsStopOnTimeout | js/content.js:25-30 | If rows never appear, an invocation at or past the time budget ends the chain, whatever retries remain. No row query happens from that invocation on. |
| Poller.RowsAppearThenReady | js/content.js:18-69 | Empty rows followed, within both budgets, by rows gives `Ready` with the links of the last rows. One row query happens per invocation. |
| Scheduler.FillCap | js/content.js:77-91 | The inner loop never takes the active set past 5. It stops only when the queue is empty or the active set is full. |
| Scheduler.FillFifo | js/content.js:72-91 | The inner loop consumes a prefix of the queue in FIFO order. It dispatches exactly that prefix's links whose next sibling is not a diffstat, in order. Links followed by a diffstat are dropped. |
| Scheduler.FillFreshIds | js/content.js:85-90 | Each dispatch adds one fresh request to the active set. A dropped link adds none, so it uses no slot. |
| Scheduler.StepInv | js/content.js:75-102 | Every transition preserves the invariant. This covers the cap of 5 in flight, the FIFO accounting against the original links, fragments coming only from settled requests, and the phase conditions. Every transition strictly decreases the termination measure. |
| Scheduler.RunInv | js/content.js:75-102 | Any possible sequence of events keeps the invariant, and its length is bounded by the measure. The loop terminates under every settlement order. |
| Scheduler.Progress | js/content.js:75-96 | Some event is possible exactly when the loop has not exited. The loop exits exactly when the queue and the active set are both empty. |
| Scheduler.SettleFreesSlot | js/content.js:85-88 | A request in flight can settle with any response and always frees its slot. A fragment is attached only when the response had one. The queue and the dispatched links are unchanged. |
| Scheduler.DelayOnlyWithQueuedWork | js/content.js:98-101 | The pacing delay is taken only while links are still queued, so there is never a trailing delay. |
| Scheduler.RunDelays | js/content.js:94-101 | Over any run, the pacing delays never outnumber the links queued at the start. |
| Scheduler.FinishedDispatchesPending | js/content.js:71-91 | After the loop exits, the dispatched links are exactly the links not followed by a diffstat, in queue order. Each is dispatched once, and no link followed by one is dispatched. |
| Scheduler.Drain | js/content.js:71-103 | Running the loop, with any request allowed to settle first, reaches the exit. The dispatched links are then the pending ones, within `3 * n + 1` events and at most `n` delays. The attached fragments are exactly those of the replies that carried one. |
| Clipboard.JoinSplit | js/content.js:147-159 | Joining the split lines gives the original clipboard text back. |
| Clipboard.SplitJoin | js/content.js:154-159 | Splitting the join of newline-free lines gives those lines back. |
| Clipboard.PrLinkMentions | js/content.js:144 | The new link line names the href and the origin. It counts as a pull-request line whenever the href is a pull-request path. |
| Clipboard.Merge | js/content.js:142-163 | The new link line always ends the result. A clipboard with no line holding both `/pull/` and the origin is replaced by that line alone. |
| Clipboard.MergeLines | js/content.js:147-159 | For a pull-request clipboard, the result's lines are the old lines that do not contain the href, in original order, followed by the new link line. That last line is the only one containing the href. |
| Clipboard.MergeIdempotent | js/content.js:142-163 | Copying the same pull-request link twice leaves the clipboard as the first copy left it. |
| Content.Launch | js/content.js:65-68 | The scheduler starts exactly when the poll is `Ready` with at least one link. It starts with those links queued and nothing in flight. |
| Content.EmptyRowsNeverFetch | js/content.js:32-37 | If rows never appear, no scheduler run starts, so no diffstat is requested. |
| Content.ReadyFetchesEachMissingDiffstat | js/content.js:39-91 | End to end: a completed run requests the diffstat of exactly the valid rows whose link is not followed by a diffstat once the poller has added the Copy buttons, each once, in row order. Every valid row that had no Copy button is fetched, even when a diffstat already followed its link, because the inserted button becomes the link's next sibling. |
| Content.ReadyOnFourthAttempt | js/content.js:18-37 | Three empty invocations 500 ms apart, then seven valid rows: the poll is `Ready` on the fourth invocation with seven links, after four row queries. |

## Left out

- Presentation. The green background for approved rows (js/content.js:43-46) and the Copy button's styling and click handler (js/content.js:124-136) are UI only. Rows therefore carry no approval text. The button's position right after the link is modelled, because it decides the skip check at js/content.js:81.
- Network and parsing. `$.get` and the search of the response for `.tabnav-extra > .diffstat` (js/content.js:107-111) are abstracted. A reply is `Received(fragment or none)` or `TransportFailure`.
- Time. `setTimeout`, `Date.now` and the delays (300 ms initial, 500 ms retry interval, 200 ms pacing) are not modelled as time. The clock is an integer input to the poller, and a pacing delay is a `Delay` event. Wall-clock totals such as "three rounds of 100 ms requests" are not derived.
- Promise scheduling. Settlements are events allowed only while the loop awaits the race or the pacing timer. A settlement that lands between the race resolving and the loop resuming is modelled as one in the following phase.
- Requests that never answer. A request in flight can always settle, as both branches of `loadDiffstatAsync` resolve (js/content.js:113, 117). A transport that never calls back is outside the model.
- The diffstat check (js/content.js:81) is a flag fixed per link, computed from the row as the poller left it: true only for a row that already had a Copy button and whose link was followed by a diffstat. After collection, only a link's own request inserts anything after it, and each link is dequeued once, so the flag at dequeue is the flag after collection. A second poll running concurrently on the same rows is not modelled.
- Clipboard I/O, `window.location`, the `try`/`catch` around them and all console logging (js/content.js:140-143, 165-168). The clipboard text and the origin are parameters.
- Characters. JavaScript strings are modelled as `seq<char>`, and `includes` as substring occurrence.
- Clipboard.MergeLines: assumes the link text, origin and href contain no newline. A newline inside the link text would split the new line when the clipboard is next read.
- Clipboard.MergeIdempotent: assumes no newlines, as above, and an href containing `/pull/`. Without that, a second copy can discard the old lines.
