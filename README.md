# ClassicPhotos task coordination in Dafny

This project models the part of `ListViewController` in ClassicPhotos that
decides which background operations run for each table row. Each photo row
can have an image download and then a filtration. The controller keeps two
in-progress tables keyed by row, `downloadsInProgress` and
`filtrationsInProgress`. It also has two operation queues, each with an
`isSuspended` flag. The model covers:

- admission: `startDownload` and `startFiltration` add nothing when the row
  already has an entry;
- dispatch: `startOperations` picks the action from the record state;
- the completion blocks, which remove a row's entry unless the operation
  was cancelled;
- visibility reconciliation (`loadImagesForOnscreenCells`): pending rows
  that are off screen are cancelled, and visible rows with nothing pending
  are started;
- scroll gating: dragging suspends both queues, and the end of a drag or
  of deceleration reconciles and resumes;
- the admission branch of `cellForRowAt`.

Files:

- `records.dfy` (module `Records`): the record states `New`, `Downloaded`,
  `Filtered` and `Failed`; the two stages; and `Operation`, which stands for
  an `ImageDownloader` or `ImageFiltration` object. An operation has an
  identity, a stage and the row its completion block captures.
- `coordination.dfy` (module `Coordination`): the controller's state as a
  value (`Coordinator`) and every decision as a function on it. It also
  holds the registry invariant `Valid`. For each stage, every table entry is
  a queued, uncancelled operation for its own row, and every queued
  operation that is not cancelled is its row's entry. So a row never has two
  live operations of one stage.
- `controller.dfy` (module `Controller`): class `ListViewController`. Its
  fields are the tables, the queues, the flags and the set of cancelled
  operations. Each method that has a `Coordination` counterpart is proved to
  change the state exactly as that function says. `RecordStateChanged` has
  no counterpart and states its new state directly. Every method except
  `CancelRow` requires `Valid` and keeps it. `CancelRow`, one turn of the
  cancelling loop, requires nothing and keeps `Valid` when it held before.
  The reconciliation is two loops over sets, as in the source.
- `properties.dfy` (module `CoordinationProperties`): facts that span
  several steps. Reconciling twice is the same as reconciling once. A row
  has at most one live operation per stage. A cancelled operation's late
  completion changes nothing. There is also a three-photo walk-through.

Modelling choices:

- Rows are `nat`, standing for `indexPath.row`. The table has one section.
- An operation's identity comes from a counter. This stands for allocating a
  new operation object.
- A queue is the list of operations it still holds, plus `isSuspended`. A
  completion removes the finished operation from its queue, as
  `OperationQueue` does. `cancel()` adds the operation to `cancelled`, which
  stands for its `isCancelled` flag.
- The cancelling loop visits rows in any order. The starting loop visits
  rows in ascending order. The source iterates a `Set`, whose order is
  unspecified. The order decides which identity each new operation gets.
  It also decides the order in which new operations are appended to the
  queues, which is the order of the `addOperation` calls. Fixing it lets
  the loop be tied to one function, `StartRows`.
- Record states are changed by the operations themselves, whose code is not
  part of this model. `RecordStateChanged` takes the new state as an input
  and imposes no transition rule.
- `tableView.indexPathsForVisibleRows` is a parameter of type
  `Option<set<nat>>`. `None` is the nil case, where nothing happens.
  `isDragging` and `isDecelerating` are parameters of `CellForRowAt`.

In the following places the code does less than, or something other than,
what a task coordinator of this kind is meant to do. The model follows the
code:

- A coordinator could reject a second admission for a row with an
  `AlreadyPending` error. The code's admission over an existing entry is a
  silent no-op.
- Neither completion block updates the record state. The operations do
  that.
- Reconciliation has no guard against running during a drag. The code only
  calls it when a drag ends without deceleration, or when deceleration
  ends.
- A completion does not itself start the next stage. The filtration is
  admitted by a later `cellForRowAt` or reconciliation.
- The intended behaviour is that at most one download and one filtration
  per row are ever in flight at once. The code does not guarantee this.
  `cancel()` only flags an operation and leaves it in its queue. If a row
  scrolls away and back before its cancelled download finishes,
  `startDownload` queues a replacement next to it.
  `ScrollAwayAndBackQueuesTwoDownloads` shows the two queued downloads. In
  the model, a row has at most one live, uncancelled operation per stage
  (`AtMostOneInFlight`). That holds only because the model's completion is
  one event (see "## Left out"). The code does not guarantee it.

## Model

| member | source | states |
|---|---|---|
| Coordination.Initial | ClassicPhotos/ClassicPhotos/ListViewController.swift:35-36 | A freshly loaded controller has nothing pending and nothing cancelled, both queues are running, and the registry invariant holds |
| Coordination.Admit | ClassicPhotos/ClassicPhotos/ListViewController.swift:96-143 | If the stage's table already has the row, nothing changes. Otherwise exactly one operation of that stage for that row is registered under the row. No other entry changes, and the same operation is appended to that stage's queue. Under the invariant it is a new operation: not already queued and not cancelled. The other stage, the records and `cancelled` are untouched, and the invariant is kept |
| Coordination.AdmitStageValid | ClassicPhotos/ClassicPhotos/ListViewController.swift:96-143 | Registering a new operation for a row with no entry keeps the registry invariant of both stages |
| Coordination.StartOperations | ClassicPhotos/ClassicPhotos/ListViewController.swift:85-94 | `New` touches only the download table and leaves the row pending there. `Downloaded` touches only the filtration table and leaves the row pending there. `Filtered` and `Failed` change nothing. Queues only grow, and the invariant is kept |
| Coordination.Complete | ClassicPhotos/ClassicPhotos/ListViewController.swift:106-139 | The finished operation leaves its queue. A cancelled operation leaves both tables unchanged. An uncancelled one removes only its own row from its own stage's table, and under the invariant that entry was the operation itself. The other stage, the records and `cancelled` are unchanged, and the invariant is kept |
| Coordination.CancelRows | ClassicPhotos/ClassicPhotos/ListViewController.swift:249-260 | Each given row loses both entries, and each removed entry's operation becomes cancelled. No other operation becomes cancelled. Queues and records are unchanged, and the invariant is kept |
| Coordination.CancelRowsNotPending | ClassicPhotos/ClassicPhotos/ListViewController.swift:249-260 | Cancelling rows that have nothing pending changes nothing at all |
| Coordination.CancelRowsStageValid | ClassicPhotos/ClassicPhotos/ListViewController.swift:249-260 | Cancelling and removing the entries of a set of rows keeps the registry invariant of each stage |
| Coordination.CancelRowsStep | ClassicPhotos/ClassicPhotos/ListViewController.swift:250-260 | Cancelling rows one after another is the same as cancelling them all at once, so the loop's visiting order does not matter |
| Coordination.CancelledOneRow | ClassicPhotos/ClassicPhotos/ListViewController.swift:251-259 | One turn of the cancelling loop (cancel the download if any, remove it, then the same for the filtration) equals cancelling that single row |
| Coordination.StartRows | ClassicPhotos/ClassicPhotos/ListViewController.swift:262-266 | Starting rows changes neither the records, `cancelled`, nor the suspension flags, and queues only grow |
| Coordination.StartRowsAgreeOutside | ClassicPhotos/ClassicPhotos/ListViewController.swift:262-266 | Starting a set of rows leaves the entries of every other row, in both tables, exactly as they were |
| Coordination.StartRowsAdmits | ClassicPhotos/ClassicPhotos/ListViewController.swift:262-266 | Each started row that had nothing pending ends up with a download exactly when its record is `New`, and with a filtration exactly when it is `Downloaded` |
| Coordination.StartRowsInert | ClassicPhotos/ClassicPhotos/ListViewController.swift:262-266 | Starting rows whose records are all `Filtered` or `Failed` changes nothing |
| Coordination.StartRowsValid | ClassicPhotos/ClassicPhotos/ListViewController.swift:262-266 | Starting a set of rows keeps the registry invariant |
| Coordination.Reconcile | ClassicPhotos/ClassicPhotos/ListViewController.swift:232-268 | After reconciling, no row outside `visible` is a key of either table, and every entry for an off-screen row had its operation cancelled. Rows both pending and visible keep exactly their entries. Visible rows that were not pending are started by record state, so every visible row is pending or `Filtered`/`Failed`. Records and flags are unchanged, queues only grow, and the invariant is kept. The only operations newly cancelled are the entries of off-screen rows, so no visible row's operation is cancelled |
| Coordination.LoadImagesForOnscreenCells | ClassicPhotos/ClassicPhotos/ListViewController.swift:232-268 | With no visible rows reported, nothing changes. Otherwise no row outside the visible rows stays pending, and nothing is un-cancelled. Records and flags are unchanged, and the invariant is kept |
| Coordination.SuspendAllOperations | ClassicPhotos/ClassicPhotos/ListViewController.swift:222-225 | Both queues are suspended, and nothing but the two flags changes |
| Coordination.ResumeAllOperations | ClassicPhotos/ClassicPhotos/ListViewController.swift:227-230 | Both queues are running, and nothing but the two flags changes |
| Coordination.ScrollViewDidEndDragging | ClassicPhotos/ClassicPhotos/ListViewController.swift:208-214 | With deceleration, nothing changes. Without it, the state is the reconciled one with both queues running, so no off-screen row stays pending |
| Coordination.ScrollViewDidEndDecelerating | ClassicPhotos/ClassicPhotos/ListViewController.swift:216-220 | The state is the reconciled one with both queues running, so no off-screen row stays pending |
| Coordination.CellForRowAt | ClassicPhotos/ClassicPhotos/ListViewController.swift:69-80 | While dragging or decelerating, or for a `Filtered`/`Failed` record, nothing changes. Otherwise a `New` row gets a download entry and a `Downloaded` row a filtration entry. No other row's entries change, and the invariant is kept |
| Controller.ListViewController.constructor | ClassicPhotos/ClassicPhotos/ListViewController.swift:35-36 | The new controller's state is `Initial(records)`, so the invariant holds |
| Controller.ListViewController.StartOperations | ClassicPhotos/ClassicPhotos/ListViewController.swift:85-94 | Updates the fields exactly as `Coordination.StartOperations` and keeps the invariant |
| Controller.ListViewController.StartDownload | ClassicPhotos/ClassicPhotos/ListViewController.swift:96-122 | Guard, register, enqueue: the new state is `Admit(old, Download, row)` |
| Controller.ListViewController.StartFiltration | ClassicPhotos/ClassicPhotos/ListViewController.swift:124-143 | The new state is `Admit(old, Filtration, row)` |
| Controller.ListViewController.DownloaderCompleted | ClassicPhotos/ClassicPhotos/ListViewController.swift:106-115 | The download completion block's effect is `Complete(old, downloader)`, and the invariant is kept |
| Controller.ListViewController.FiltererCompleted | ClassicPhotos/ClassicPhotos/ListViewController.swift:130-139 | The filtration completion block's effect is `Complete(old, filterer)`, and the invariant is kept |
| Controller.ListViewController.RecordStateChanged | ClassicPhotos/ClassicPhotos/ListViewController.swift:103 | An operation holding the record changes its state. Only that record changes, and the invariant is kept |
| Controller.ListViewController.SuspendAllOperations | ClassicPhotos/ClassicPhotos/ListViewController.swift:222-225 | Sets both `isSuspended` fields, as `Coordination.SuspendAllOperations` |
| Controller.ListViewController.ResumeAllOperations | ClassicPhotos/ClassicPhotos/ListViewController.swift:227-230 | Clears both `isSuspended` fields, as `Coordination.ResumeAllOperations` |
| Controller.ListViewController.LoadImagesForOnscreenCells | ClassicPhotos/ClassicPhotos/ListViewController.swift:232-268 | Computes the pending set and the two differences, then runs the two loops. The result is `Reconcile(old, visible)`, or no change when there are no visible rows, and the invariant is kept |
| Controller.ListViewController.CancelOperations | ClassicPhotos/ClassicPhotos/ListViewController.swift:250-260 | The cancelling loop, in any order, ends in `CancelRows(old, toBeCancelled)`. The loop invariant is that the rows done so far are cancelled |
| Controller.ListViewController.CancelRow | ClassicPhotos/ClassicPhotos/ListViewController.swift:251-259 | One loop turn: the state becomes `CancelRows(old, {row})` |
| Controller.ListViewController.StartOperationsForRows | ClassicPhotos/ClassicPhotos/ListViewController.swift:263-266 | The starting loop ends in `StartRows(old, toBeStarted)`. The loop invariant is that starting the remaining rows from here gives the same result as starting all of them from the beginning |
| Controller.ListViewController.ScrollViewWillBeginDragging | ClassicPhotos/ClassicPhotos/ListViewController.swift:203-206 | Both queues become suspended, and nothing else changes |
| Controller.ListViewController.ScrollViewDidEndDragging | ClassicPhotos/ClassicPhotos/ListViewController.swift:208-214 | The new state is `Coordination.ScrollViewDidEndDragging(old, decelerate, visible)` |
| Controller.ListViewController.ScrollViewDidEndDecelerating | ClassicPhotos/ClassicPhotos/ListViewController.swift:216-220 | The new state is `Coordination.ScrollViewDidEndDecelerating(old, visible)` |
| Controller.ListViewController.CellForRowAt | ClassicPhotos/ClassicPhotos/ListViewController.swift:69-80 | The new state is `Coordination.CellForRowAt(old, row, isDragging, isDecelerating)` |
| CoordinationProperties.ReconcileIdempotent | ClassicPhotos/ClassicPhotos/ListViewController.swift:237-266 | Reconciling twice with the same visible rows, with no completion in between, gives the same state as reconciling once. The second call cancels nothing and registers nothing |
| CoordinationProperties.AtMostOneInFlight | ClassicPhotos/ClassicPhotos/ListViewController.swift:98-100 | Under the invariant, two live (queued, uncancelled) operations of one stage for the same row are the same operation |
| CoordinationProperties.ScrollAwayAndBackQueuesTwoDownloads | ClassicPhotos/ClassicPhotos/ListViewController.swift:96-122 | A new row with a queued download that is reconciled off screen and then back on screen ends with two distinct downloads for that row in the queue: the cancelled one and a live replacement |
| CoordinationProperties.LateCompletionAfterScrollAway | ClassicPhotos/ClassicPhotos/ListViewController.swift:106-115 | A download whose row scrolls off screen is cancelled but still queued. Its later completion leaves both tables and the records unchanged |
| CoordinationProperties.DownloadThenFiltration | ClassicPhotos/ClassicPhotos/ListViewController.swift:85-94 | Three new photos with row 2 visible: only row 2 gets a download. After it completes and the record becomes `Downloaded`, nothing is pending. The next reconciliation with row 2 visible admits its filtration and no download |

## Left out

- `fetchPhotoDetails` (networking, property-list decoding, the alert) is not
  modelled. The constructor takes the loaded record states.
- Cell rendering in `cellForRowAt` is not modelled: the activity indicator,
  labels, images, and `reloadRows` after a completion. Only the admission
  branch is kept.
- `OperationQueue` execution is not modelled: running operations, the
  concurrency limit and dispatch order. A queue is a list plus a flag, and
  a completion can be delivered for any queued operation even while its
  queue is suspended.
- The `DispatchQueue.main.async` hop in the completion blocks is not
  modelled. The cancellation check and the table update form one sequential
  event, `Complete`. In the code the `isCancelled` check (lines 107 and 131)
  runs before the hop. The removal on the main queue (lines 112 and 136)
  goes by row key and does not check that the entry is still this
  operation. Suppose the row is cancelled and admitted again between the
  check and the removal. The removal then drops the new operation's entry,
  and a later reconciliation can admit a third operation while the second
  is still live. The model cannot reach this state, so `AtMostOneInFlight`
  is a fact about the model only.
- The internals of `ImageDownloader`, `ImageFiltration`, `PhotoRecord` and
  `PendingOperations` are not part of this model. That includes the image
  download and the Core Image filtering. Their effect on record state enters
  through `RecordStateChanged`.
- `viewDidLoad`, the title and `numberOfRowsInSection` are display glue and
  are not modelled.
- The iteration order of `Set` in reconciliation is not modelled. The
  starting loop uses ascending row order. That order affects which identity
  each new operation gets and the order in which new operations join the
  queues.
- No rule for how record states evolve (for example, that a state never
  goes backwards) is modelled or proved. The operations that change states
  are not part of this model, so `RecordStateChanged` accepts any new
  state.
