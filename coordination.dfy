/**
 * The coordination logic of ListViewController as functions on a value:
 * which download and filtration operations are admitted, cancelled and
 * retired, per table row. The class in controller.dfy is proved to follow
 * these functions step by step.
 */
module Coordination {
  import opened Records

  /**
   * One stage's part of PendingOperations: the in-progress table keyed by
   * row (downloadsInProgress / filtrationsInProgress), the operations its
   * OperationQueue still holds (not yet finished), and the queue's
   * isSuspended flag.
   */
  datatype StageQueue = StageQueue(inProgress: map<nat, Operation>, operations: seq<Operation>, isSuspended: bool)

  /**
   * The controller's state: the record state of every photo, one StageQueue
   * per stage, the operations that have been sent `cancel()`, and the id the
   * next operation object will get.
   */
  datatype Coordinator = Coordinator(
    photos: seq<PhotoRecordState>,
    downloads: StageQueue,
    filtrations: StageQueue,
    cancelled: set<Operation>,
    nextId: nat)
  {
    function QueueFor(s: Stage): (q: StageQueue) {
      if s == Download then downloads else filtrations
    }

    function WithQueue(s: Stage, q: StageQueue): (r: Coordinator)
      ensures r.QueueFor(s) == q && r.QueueFor(Other(s)) == QueueFor(Other(s))
      ensures r.photos == photos && r.cancelled == cancelled && r.nextId == nextId
    {
      if s == Download then this.(downloads := q) else this.(filtrations := q)
    }

    /** The rows with an operation in progress in either table. */
    function PendingRows(): (rows: set<nat>)
      ensures forall row :: row in rows <==> row in downloads.inProgress || row in filtrations.inProgress
    {
      downloads.inProgress.Keys + filtrations.inProgress.Keys
    }
  }

  /** States in which startOperations does nothing. */
  predicate Inert(state: PhotoRecordState) {
    state == Filtered || state == Failed
  }

  /**
   * The registry invariant for one stage: every table entry is an operation
   * of that stage for its own row, still queued and not cancelled; and every
   * queued operation that is not cancelled is the table entry of its row,
   * so a row has at most one live operation per stage.
   */
  ghost predicate StageValid(c: Coordinator, s: Stage) {
    var q := c.QueueFor(s);
    && (forall op :: op in q.operations ==> op.stage == s && op.id < c.nextId)
    && (forall row :: row in q.inProgress ==>
          q.inProgress[row].row == row && q.inProgress[row] in q.operations && q.inProgress[row] !in c.cancelled)
    && (forall op :: op in q.operations && op !in c.cancelled ==>
          op.row in q.inProgress && q.inProgress[op.row] == op)
  }

  ghost predicate Valid(c: Coordinator) {
    && StageValid(c, Download)
    && StageValid(c, Filtration)
    && (forall op :: op in c.cancelled ==> op.id < c.nextId)
  }

  /** The state after the photo list is loaded: nothing pending, queues running. */
  function Initial(photos: seq<PhotoRecordState>): (r: Coordinator)
    ensures r.photos == photos && r.PendingRows() == {} && r.cancelled == {}
    ensures !r.downloads.isSuspended && !r.filtrations.isSuspended
    ensures Valid(r)
  {
    Coordinator(photos, StageQueue(map[], [], false), StageQueue(map[], [], false), {}, 0)
  }

  /**
   * startDownload / startFiltration: unless the stage's table already has an
   * entry for `row`, create one operation, register it under `row` and add
   * it to the stage's queue.
   */
  function Admit(c: Coordinator, s: Stage, row: nat): (r: Coordinator)
    ensures r.photos == c.photos && r.cancelled == c.cancelled
    ensures r.QueueFor(Other(s)) == c.QueueFor(Other(s))
    ensures r.QueueFor(s).isSuspended == c.QueueFor(s).isSuspended
    ensures row in r.QueueFor(s).inProgress
    ensures r.QueueFor(s).inProgress - {row} == c.QueueFor(s).inProgress - {row}
    ensures row in c.QueueFor(s).inProgress ==> r == c
    ensures row !in c.QueueFor(s).inProgress ==>
              var op := r.QueueFor(s).inProgress[row];
              && op.stage == s && op.row == row
              && r.QueueFor(s).operations == c.QueueFor(s).operations + [op]
              && (Valid(c) ==> op !in c.QueueFor(s).operations && op !in c.cancelled)
    ensures Valid(c) ==> Valid(r)
  {
    var q := c.QueueFor(s);
    if row in q.inProgress then c
    else
      var op := Operation(c.nextId, s, row);
      var r := c.WithQueue(s, q.(inProgress := q.inProgress[row := op], operations := q.operations + [op])).(nextId := c.nextId + 1);
      assert Valid(c) ==> Valid(r) by {
        if Valid(c) {
          AdmitStageValid(c, r, s, row, s);
          AdmitStageValid(c, r, s, row, Other(s));
        }
      }
      r
  }

  lemma AdmitStageValid(c: Coordinator, r: Coordinator, s: Stage, row: nat, t: Stage)
    requires Valid(c) && row !in c.QueueFor(s).inProgress
    requires r == c.WithQueue(s, c.QueueFor(s).(inProgress := c.QueueFor(s).inProgress[row := Operation(c.nextId, s, row)],
                                                 operations := c.QueueFor(s).operations + [Operation(c.nextId, s, row)])).(nextId := c.nextId + 1)
    ensures StageValid(r, t)
  {
    assert StageValid(c, t);
    if t != s {
      assert r.QueueFor(t) == c.QueueFor(t);
    }
  }

  /**
   * startOperations: a new record gets a download, a downloaded record a
   * filtration, any other record nothing.
   */
  function StartOperations(c: Coordinator, state: PhotoRecordState, row: nat): (r: Coordinator)
    ensures r.photos == c.photos && r.cancelled == c.cancelled
    ensures r.downloads.isSuspended == c.downloads.isSuspended
    ensures r.filtrations.isSuspended == c.filtrations.isSuspended
    ensures state == New ==>
              && r.filtrations == c.filtrations
              && row in r.downloads.inProgress
              && r.downloads.inProgress - {row} == c.downloads.inProgress - {row}
    ensures state == Downloaded ==>
              && r.downloads == c.downloads
              && row in r.filtrations.inProgress
              && r.filtrations.inProgress - {row} == c.filtrations.inProgress - {row}
    ensures Inert(state) ==> r == c
    ensures c.downloads.operations <= r.downloads.operations
    ensures c.filtrations.operations <= r.filtrations.operations
    ensures Valid(c) ==> Valid(r)
  {
    match state
    case New => Admit(c, Download, row)
    case Downloaded => Admit(c, Filtration, row)
    case Filtered => c
    case Failed => c
  }

  /**
   * The completion block of `op`, run when its queue finishes it: the queue
   * drops the operation; unless it was cancelled, the entry for its row is
   * removed from its own stage's table.
   */
  function Complete(c: Coordinator, op: Operation): (r: Coordinator)
    requires op in c.QueueFor(op.stage).operations
    ensures r.photos == c.photos && r.cancelled == c.cancelled && r.nextId == c.nextId
    ensures r.QueueFor(Other(op.stage)) == c.QueueFor(Other(op.stage))
    ensures r.QueueFor(op.stage).isSuspended == c.QueueFor(op.stage).isSuspended
    ensures forall x :: x in r.QueueFor(op.stage).operations <==> x in c.QueueFor(op.stage).operations && x != op
    ensures op in c.cancelled ==> r.QueueFor(op.stage).inProgress == c.QueueFor(op.stage).inProgress
    ensures op !in c.cancelled ==> r.QueueFor(op.stage).inProgress == c.QueueFor(op.stage).inProgress - {op.row}
    ensures Valid(c) && op !in c.cancelled ==>
              op.row in c.QueueFor(op.stage).inProgress && c.QueueFor(op.stage).inProgress[op.row] == op
    ensures Valid(c) ==> Valid(r)
  {
    var q := c.QueueFor(op.stage);
    var q' := q.(operations := Without(q.operations, op));
    var r := c.WithQueue(op.stage, if op in c.cancelled then q' else q'.(inProgress := q'.inProgress - {op.row}));
    assert Valid(c) ==> StageValid(r, op.stage) && StageValid(r, Other(op.stage));
    r
  }

  /** The operations a table holds for `rows`. */
  function Entries(m: map<nat, Operation>, rows: set<nat>): (r: set<Operation>)
    ensures forall op :: op in r <==> exists row :: row in rows && row in m && m[row] == op
  {
    set row | row in rows && row in m :: m[row]
  }

  /**
   * The cancelling loop of loadImagesForOnscreenCells: for every row of
   * `rows`, cancel the operations registered for it and remove both entries.
   */
  function CancelRows(c: Coordinator, rows: set<nat>): (r: Coordinator)
    ensures r.photos == c.photos && r.nextId == c.nextId
    ensures r.downloads == c.downloads.(inProgress := c.downloads.inProgress - rows)
    ensures r.filtrations == c.filtrations.(inProgress := c.filtrations.inProgress - rows)
    ensures forall row :: row in rows && row in c.downloads.inProgress ==> c.downloads.inProgress[row] in r.cancelled
    ensures forall row :: row in rows && row in c.filtrations.inProgress ==> c.filtrations.inProgress[row] in r.cancelled
    ensures c.cancelled <= r.cancelled
    // only the operations of the removed entries are cancelled
    ensures forall op :: op in r.cancelled ==>
              || op in c.cancelled
              || exists row :: row in rows && ((row in c.downloads.inProgress && c.downloads.inProgress[row] == op)
                                             || (row in c.filtrations.inProgress && c.filtrations.inProgress[row] == op))
    ensures Valid(c) ==> Valid(r) && forall op :: op in r.cancelled - c.cancelled ==> op.row in rows
  {
    var r := c.(downloads := c.downloads.(inProgress := c.downloads.inProgress - rows),
                filtrations := c.filtrations.(inProgress := c.filtrations.inProgress - rows),
                cancelled := c.cancelled + Entries(c.downloads.inProgress, rows) + Entries(c.filtrations.inProgress, rows));
    assert Valid(c) ==> StageValid(r, Download) && StageValid(r, Filtration) by {
      if Valid(c) {
        CancelRowsStageValid(c, r, rows, Download);
        CancelRowsStageValid(c, r, rows, Filtration);
      }
    }
    r
  }

  lemma CancelRowsStageValid(c: Coordinator, r: Coordinator, rows: set<nat>, s: Stage)
    requires Valid(c)
    requires r == c.(downloads := c.downloads.(inProgress := c.downloads.inProgress - rows),
                     filtrations := c.filtrations.(inProgress := c.filtrations.inProgress - rows),
                     cancelled := c.cancelled + Entries(c.downloads.inProgress, rows) + Entries(c.filtrations.inProgress, rows))
    ensures StageValid(r, s)
  {
    var q, q' := c.QueueFor(s), r.QueueFor(s);
    var e := Entries(c.QueueFor(s).inProgress, rows);
    var e' := Entries(c.QueueFor(Other(s)).inProgress, rows);
    assert r.cancelled == c.cancelled + e + e';
    forall row | row in q'.inProgress
      ensures q'.inProgress[row] !in r.cancelled
    {
    }
    forall op | op in q'.operations && op !in r.cancelled
      ensures op.row in q'.inProgress && q'.inProgress[op.row] == op
    {
    }
  }

  /** Cancelling rows that have nothing pending changes nothing, not even `cancelled`. */
  lemma CancelRowsNotPending(c: Coordinator, rows: set<nat>)
    requires rows * c.PendingRows() == {}
    ensures CancelRows(c, rows) == c
  {
    var r := CancelRows(c, rows);
    forall row | row in rows ensures row !in c.downloads.inProgress && row !in c.filtrations.inProgress {
      assert row !in rows * c.PendingRows();
    }
    assert r.downloads.inProgress.Keys == c.downloads.inProgress.Keys;
    assert r.downloads.inProgress == c.downloads.inProgress;
    assert r.filtrations.inProgress.Keys == c.filtrations.inProgress.Keys;
    assert r.filtrations.inProgress == c.filtrations.inProgress;
    assert Entries(c.downloads.inProgress, rows) == {};
    assert Entries(c.filtrations.inProgress, rows) == {};
  }

  /** Cancelling `done` and then `row` is cancelling `done + {row}`. */
  lemma CancelRowsStep(c: Coordinator, done: set<nat>, row: nat)
    ensures CancelRows(CancelRows(c, done), {row}) == CancelRows(c, done + {row})
  {
    EntriesStep(c.downloads.inProgress, done, row);
    EntriesStep(c.filtrations.inProgress, done, row);
    assert c.downloads.inProgress - done - {row} == c.downloads.inProgress - (done + {row});
    assert c.filtrations.inProgress - done - {row} == c.filtrations.inProgress - (done + {row});
  }

  lemma EntriesStep(m: map<nat, Operation>, done: set<nat>, row: nat)
    ensures Entries(m, done + {row}) == Entries(m, done) + Entries(m - done, {row})
  {
  }

  /** One turn of the cancelling loop: cancel the row's operations, then drop its entries. */
  lemma CancelledOneRow(c: Coordinator, row: nat, r: Coordinator)
    requires r.photos == c.photos && r.nextId == c.nextId
    requires r.downloads == c.downloads.(inProgress := c.downloads.inProgress - {row})
    requires r.filtrations == c.filtrations.(inProgress := c.filtrations.inProgress - {row})
    requires r.cancelled == c.cancelled
                            + (if row in c.downloads.inProgress then {c.downloads.inProgress[row]} else {})
                            + (if row in c.filtrations.inProgress then {c.filtrations.inProgress[row]} else {})
    ensures r == CancelRows(c, {row})
  {
    assert Entries(c.downloads.inProgress, {row}) == if row in c.downloads.inProgress then {c.downloads.inProgress[row]} else {};
    assert Entries(c.filtrations.inProgress, {row}) == if row in c.filtrations.inProgress then {c.filtrations.inProgress[row]} else {};
  }

  /** The least of a non-empty set of rows. */
  ghost function Min(rows: set<nat>): (m: nat)
    requires rows != {}
    ensures m in rows && forall k :: k in rows ==> m <= k
    decreases rows
  {
    var k :| k in rows;
    if rows - {k} == {} then
      assert forall j :: j in rows ==> j in rows - {k} || j == k;
      k
    else
      var m' := Min(rows - {k});
      assert forall j :: j in rows ==> j in rows - {k} || j == k;
      if k <= m' then k else m'
  }

  predicate Indexable(c: Coordinator, rows: set<nat>) {
    forall row :: row in rows ==> row < |c.photos|
  }

  /** The two tables agree on every row outside `rows`. */
  ghost predicate AgreeOutside(m: map<nat, Operation>, m': map<nat, Operation>, rows: set<nat>) {
    forall k :: k !in rows ==> (k in m <==> k in m') && (k in m ==> m[k] == m'[k])
  }

  /**
   * The starting loop of loadImagesForOnscreenCells: startOperations for
   * every row of `rows` with that row's record, visiting rows in ascending
   * order.
   */
  ghost function StartRows(c: Coordinator, rows: set<nat>): (r: Coordinator)
    requires Indexable(c, rows)
    ensures r.photos == c.photos && r.cancelled == c.cancelled
    ensures r.downloads.isSuspended == c.downloads.isSuspended
    ensures r.filtrations.isSuspended == c.filtrations.isSuspended
    ensures c.downloads.operations <= r.downloads.operations
    ensures c.filtrations.operations <= r.filtrations.operations
    decreases rows
  {
    if rows == {} then c
    else
      var row := Min(rows);
      StartRows(StartOperations(c, c.photos[row], row), rows - {row})
  }

  /** Starting rows leaves the entries of every other row alone. */
  lemma {:induction false} StartRowsAgreeOutside(c: Coordinator, rows: set<nat>)
    requires Indexable(c, rows)
    ensures AgreeOutside(c.downloads.inProgress, StartRows(c, rows).downloads.inProgress, rows)
    ensures AgreeOutside(c.filtrations.inProgress, StartRows(c, rows).filtrations.inProgress, rows)
    decreases rows
  {
    if rows != {} {
      var row := Min(rows);
      var c' := StartOperations(c, c.photos[row], row);
      StartRowsAgreeOutside(c', rows - {row});
      assert AgreeOutside(c.downloads.inProgress, c'.downloads.inProgress, {row}) by {
        forall k | k != row ensures (k in c.downloads.inProgress <==> k in c'.downloads.inProgress) {
          assert k in c.downloads.inProgress - {row} <==> k in c'.downloads.inProgress - {row};
        }
      }
      assert AgreeOutside(c.filtrations.inProgress, c'.filtrations.inProgress, {row}) by {
        forall k | k != row ensures (k in c.filtrations.inProgress <==> k in c'.filtrations.inProgress) {
          assert k in c.filtrations.inProgress - {row} <==> k in c'.filtrations.inProgress - {row};
        }
      }
    }
  }

  /** Every row of `rows` that was not pending gets the work its record state calls for. */
  lemma {:induction false} StartRowsAdmits(c: Coordinator, rows: set<nat>)
    requires Indexable(c, rows)
    ensures forall row :: row in rows - c.PendingRows() ==>
              && (row in StartRows(c, rows).downloads.inProgress <==> c.photos[row] == New)
              && (row in StartRows(c, rows).filtrations.inProgress <==> c.photos[row] == Downloaded)
    decreases rows
  {
    if rows != {} {
      var row := Min(rows);
      var c' := StartOperations(c, c.photos[row], row);
      var r := StartRows(c', rows - {row});
      StartRowsAdmits(c', rows - {row});
      StartRowsAgreeOutside(c', rows - {row});
      forall k | k in rows - c.PendingRows()
        ensures (k in r.downloads.inProgress <==> c.photos[k] == New)
        ensures (k in r.filtrations.inProgress <==> c.photos[k] == Downloaded)
      {
        if k == row {
          assert k !in rows - {row};
        } else {
          assert k !in c.downloads.inProgress - {row} && k !in c.filtrations.inProgress - {row};
          assert k in rows - {row} - c'.PendingRows();
        }
      }
    }
  }

  /** Rows whose records need nothing are started to no effect. */
  lemma {:induction false} StartRowsInert(c: Coordinator, rows: set<nat>)
    requires Indexable(c, rows)
    requires forall row :: row in rows ==> Inert(c.photos[row])
    ensures StartRows(c, rows) == c
    decreases rows
  {
    if rows != {} {
      var row := Min(rows);
      StartRowsInert(c, rows - {row});
    }
  }

  lemma {:induction false} StartRowsValid(c: Coordinator, rows: set<nat>)
    requires Indexable(c, rows) && Valid(c)
    ensures Valid(StartRows(c, rows))
    decreases rows
  {
    if rows != {} {
      var row := Min(rows);
      StartRowsValid(StartOperations(c, c.photos[row], row), rows - {row});
    }
  }

  /** What loadImagesForOnscreenCells demands: every visible row it starts indexes `photos`. */
  predicate CanReconcile(c: Coordinator, visible: set<nat>) {
    Indexable(c, visible - c.PendingRows())
  }

  /**
   * loadImagesForOnscreenCells with the visible rows `visible`: cancel and
   * remove the work of pending rows that are not visible, then start the
   * visible rows that are not pending.
   */
  ghost function Reconcile(c: Coordinator, visible: set<nat>): (r: Coordinator)
    requires CanReconcile(c, visible)
    ensures r.photos == c.photos
    ensures r.downloads.isSuspended == c.downloads.isSuspended
    ensures r.filtrations.isSuspended == c.filtrations.isSuspended
    // nothing off screen stays pending, and what was removed was cancelled
    ensures r.PendingRows() <= visible
    ensures forall row :: row in c.downloads.inProgress && row !in visible ==> c.downloads.inProgress[row] in r.cancelled
    ensures forall row :: row in c.filtrations.inProgress && row !in visible ==> c.filtrations.inProgress[row] in r.cancelled
    // rows both pending and visible keep their entries
    ensures forall row :: row in visible && row in c.PendingRows() ==>
              && (row in r.downloads.inProgress <==> row in c.downloads.inProgress)
              && (row in c.downloads.inProgress ==> r.downloads.inProgress[row] == c.downloads.inProgress[row])
              && (row in r.filtrations.inProgress <==> row in c.filtrations.inProgress)
              && (row in c.filtrations.inProgress ==> r.filtrations.inProgress[row] == c.filtrations.inProgress[row])
    // visible rows that were not pending are started by their record state
    ensures forall row :: row in visible - c.PendingRows() ==>
              && (row in r.downloads.inProgress <==> c.photos[row] == New)
              && (row in r.filtrations.inProgress <==> c.photos[row] == Downloaded)
    ensures forall row :: row in visible - r.PendingRows() ==> row in visible - c.PendingRows() && Inert(c.photos[row])
    // cancelling flags an operation; nothing leaves a queue
    ensures c.cancelled <= r.cancelled
    ensures c.downloads.operations <= r.downloads.operations
    ensures c.filtrations.operations <= r.filtrations.operations
    // only the operations of the removed off-screen entries are cancelled
    ensures forall op :: op in r.cancelled ==>
              || op in c.cancelled
              || exists row :: row !in visible && ((row in c.downloads.inProgress && c.downloads.inProgress[row] == op)
                                                || (row in c.filtrations.inProgress && c.filtrations.inProgress[row] == op))
    ensures Valid(c) ==> Valid(r) && forall op :: op in r.cancelled - c.cancelled ==> op.row !in visible
  {
    var pending := c.PendingRows();
    var afterCancel := CancelRows(c, pending - visible);
    assert afterCancel.PendingRows() == pending * visible;
    StartRowsAgreeOutside(afterCancel, visible - pending);
    StartRowsAdmits(afterCancel, visible - pending);
    assert Valid(c) ==> Valid(StartRows(afterCancel, visible - pending)) by {
      if Valid(c) { StartRowsValid(afterCancel, visible - pending); }
    }
    StartRows(afterCancel, visible - pending)
  }

  /** What the scroll callbacks demand of the visible rows, when there are any. */
  predicate CanLoad(c: Coordinator, visible: Option<set<nat>>) {
    visible.Some? ==> CanReconcile(c, visible.value)
  }

  /** loadImagesForOnscreenCells: nothing when the table reports no visible rows. */
  ghost function LoadImagesForOnscreenCells(c: Coordinator, visible: Option<set<nat>>): (r: Coordinator)
    requires CanLoad(c, visible)
    ensures visible.None? ==> r == c
    ensures visible.Some? ==> r.PendingRows() <= visible.value && c.cancelled <= r.cancelled
    ensures r.photos == c.photos
    ensures r.downloads.isSuspended == c.downloads.isSuspended && r.filtrations.isSuspended == c.filtrations.isSuspended
    ensures Valid(c) ==> Valid(r)
  {
    match visible
    case None => c
    case Some(v) => Reconcile(c, v)
  }

  /** `r` differs from `c` at most in the two isSuspended flags. */
  predicate SameExceptSuspension(c: Coordinator, r: Coordinator) {
    && r.photos == c.photos && r.cancelled == c.cancelled && r.nextId == c.nextId
    && r.downloads.inProgress == c.downloads.inProgress && r.downloads.operations == c.downloads.operations
    && r.filtrations.inProgress == c.filtrations.inProgress && r.filtrations.operations == c.filtrations.operations
  }

  function SuspendAllOperations(c: Coordinator): (r: Coordinator)
    ensures r.downloads.isSuspended && r.filtrations.isSuspended
    ensures SameExceptSuspension(c, r)
    ensures Valid(c) ==> Valid(r)
  {
    c.(downloads := c.downloads.(isSuspended := true), filtrations := c.filtrations.(isSuspended := true))
  }

  function ResumeAllOperations(c: Coordinator): (r: Coordinator)
    ensures !r.downloads.isSuspended && !r.filtrations.isSuspended
    ensures SameExceptSuspension(c, r)
    ensures Valid(c) ==> Valid(r)
  {
    c.(downloads := c.downloads.(isSuspended := false), filtrations := c.filtrations.(isSuspended := false))
  }

  /**
   * scrollViewDidEndDragging: without deceleration, reconcile and resume
   * both queues; with deceleration, nothing yet.
   */
  ghost function ScrollViewDidEndDragging(c: Coordinator, decelerate: bool, visible: Option<set<nat>>): (r: Coordinator)
    requires CanLoad(c, visible)
    ensures decelerate ==> r == c
    ensures !decelerate ==>
              && !r.downloads.isSuspended && !r.filtrations.isSuspended
              && SameExceptSuspension(LoadImagesForOnscreenCells(c, visible), r)
    ensures !decelerate && visible.Some? ==> r.PendingRows() <= visible.value
    ensures Valid(c) ==> Valid(r)
  {
    if !decelerate then ResumeAllOperations(LoadImagesForOnscreenCells(c, visible)) else c
  }

  /** scrollViewDidEndDecelerating: reconcile, then resume both queues. */
  ghost function ScrollViewDidEndDecelerating(c: Coordinator, visible: Option<set<nat>>): (r: Coordinator)
    requires CanLoad(c, visible)
    ensures !r.downloads.isSuspended && !r.filtrations.isSuspended
    ensures SameExceptSuspension(LoadImagesForOnscreenCells(c, visible), r)
    ensures visible.Some? ==> r.PendingRows() <= visible.value
    ensures Valid(c) ==> Valid(r)
  {
    ResumeAllOperations(LoadImagesForOnscreenCells(c, visible))
  }

  /**
   * The admission branch of cellForRowAt: a new or downloaded record gets
   * startOperations, but only while the table is neither dragging nor
   * decelerating.
   */
  function CellForRowAt(c: Coordinator, row: nat, isDragging: bool, isDecelerating: bool): (r: Coordinator)
    requires row < |c.photos|
    ensures isDragging || isDecelerating || Inert(c.photos[row]) ==> r == c
    ensures !isDragging && !isDecelerating && c.photos[row] == New ==> row in r.downloads.inProgress
    ensures !isDragging && !isDecelerating && c.photos[row] == Downloaded ==> row in r.filtrations.inProgress
    ensures r.downloads.inProgress - {row} == c.downloads.inProgress - {row}
    ensures r.filtrations.inProgress - {row} == c.filtrations.inProgress - {row}
    ensures r.photos == c.photos && r.cancelled == c.cancelled
    ensures Valid(c) ==> Valid(r)
  {
    match c.photos[row]
    case Filtered => c
    case Failed => c
    case New | Downloaded =>
      if !isDragging && !isDecelerating then StartOperations(c, c.photos[row], row) else c
  }
}
