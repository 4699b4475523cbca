/**
 * ListViewController's task coordination as a class: the two in-progress
 * tables, the two queues and their isSuspended flags are fields that the
 * methods update in place. Each method with a counterpart in module
 * Coordination is proved to move the state exactly as that function says,
 * and to keep the registry invariant.
 */
module Controller {
  import opened Records
  import opened Coordination

  class ListViewController {
    var photos: seq<PhotoRecordState>
    var downloadsInProgress: map<nat, Operation>
    var filtrationsInProgress: map<nat, Operation>
    /** The operations downloadQueue / filtrationQueue hold, not yet finished. */
    var downloadQueue: seq<Operation>
    var filtrationQueue: seq<Operation>
    var downloadQueueIsSuspended: bool
    var filtrationQueueIsSuspended: bool
    /** The operations that have been sent `cancel()`. */
    var cancelled: set<Operation>
    /** Identity of the next operation object created. */
    var nextOperationId: nat

    function Model(): (c: Coordinator)
      reads this
      ensures c.photos == photos && c.cancelled == cancelled && c.nextId == nextOperationId
    {
      Coordinator(photos,
                  StageQueue(downloadsInProgress, downloadQueue, downloadQueueIsSuspended),
                  StageQueue(filtrationsInProgress, filtrationQueue, filtrationQueueIsSuspended),
                  cancelled, nextOperationId)
    }

    ghost predicate Valid()
      reads this
    {
      Coordination.Valid(Model())
    }

    /** The controller once the photo list has been loaded. */
    constructor (records: seq<PhotoRecordState>)
      ensures Valid() && Model() == Initial(records)
    {
      photos := records;
      downloadsInProgress, filtrationsInProgress := map[], map[];
      downloadQueue, filtrationQueue := [], [];
      downloadQueueIsSuspended, filtrationQueueIsSuspended := false, false;
      cancelled := {};
      nextOperationId := 0;
    }

    method StartOperations(state: PhotoRecordState, row: nat)
      requires Valid()
      modifies this
      ensures Valid()
      ensures Model() == Coordination.StartOperations(old(Model()), state, row)
    {
      match state
      case New => StartDownload(row);
      case Downloaded => StartFiltration(row);
      case Filtered =>
      case Failed =>
    }

    method StartDownload(row: nat)
      requires Valid()
      modifies this
      ensures Valid()
      ensures Model() == Admit(old(Model()), Download, row)
    {
      if row in downloadsInProgress {
        return;
      }
      var downloader := Operation(nextOperationId, Download, row);
      nextOperationId := nextOperationId + 1;
      downloadsInProgress := downloadsInProgress[row := downloader];
      downloadQueue := downloadQueue + [downloader];
    }

    method StartFiltration(row: nat)
      requires Valid()
      modifies this
      ensures Valid()
      ensures Model() == Admit(old(Model()), Filtration, row)
    {
      if row in filtrationsInProgress {
        return;
      }
      var filterer := Operation(nextOperationId, Filtration, row);
      nextOperationId := nextOperationId + 1;
      filtrationsInProgress := filtrationsInProgress[row := filterer];
      filtrationQueue := filtrationQueue + [filterer];
    }

    /** The download queue finishes `downloader` and runs its completion block. */
    method DownloaderCompleted(downloader: Operation)
      requires Valid() && downloader.stage == Download && downloader in downloadQueue
      modifies this
      ensures Valid()
      ensures Model() == Complete(old(Model()), downloader)
    {
      downloadQueue := Without(downloadQueue, downloader);
      if downloader in cancelled {
        return;
      }
      downloadsInProgress := downloadsInProgress - {downloader.row};
    }

    /** The filtration queue finishes `filterer` and runs its completion block. */
    method FiltererCompleted(filterer: Operation)
      requires Valid() && filterer.stage == Filtration && filterer in filtrationQueue
      modifies this
      ensures Valid()
      ensures Model() == Complete(old(Model()), filterer)
    {
      filtrationQueue := Without(filtrationQueue, filterer);
      if filterer in cancelled {
        return;
      }
      filtrationsInProgress := filtrationsInProgress - {filterer.row};
    }

    /** An operation changes the state of the record at `row`. */
    method RecordStateChanged(row: nat, state: PhotoRecordState)
      requires Valid() && row < |photos|
      modifies this
      ensures Valid()
      ensures Model() == old(Model()).(photos := old(photos)[row := state])
    {
      photos := photos[row := state];
    }

    method SuspendAllOperations()
      requires Valid()
      modifies this
      ensures Valid()
      ensures Model() == Coordination.SuspendAllOperations(old(Model()))
    {
      downloadQueueIsSuspended := true;
      filtrationQueueIsSuspended := true;
    }

    method ResumeAllOperations()
      requires Valid()
      modifies this
      ensures Valid()
      ensures Model() == Coordination.ResumeAllOperations(old(Model()))
    {
      downloadQueueIsSuspended := false;
      filtrationQueueIsSuspended := false;
    }

    /**
     * Cancel the work of pending rows that are off screen, then start the
     * visible rows that have nothing pending. `visibleRows` is None when the
     * table reports no visible rows.
     */
    method LoadImagesForOnscreenCells(visibleRows: Option<set<nat>>)
      requires Valid() && CanLoad(Model(), visibleRows)
      modifies this
      ensures Valid()
      ensures Model() == Coordination.LoadImagesForOnscreenCells(old(Model()), visibleRows)
    {
      if visibleRows.None? {
        return;
      }
      var visiblePaths := visibleRows.value;
      var allPendingOperations := downloadsInProgress.Keys + filtrationsInProgress.Keys;
      var toBeCancelled := allPendingOperations - visiblePaths;
      var toBeStarted := visiblePaths - allPendingOperations;
      CancelOperations(toBeCancelled);
      StartOperationsForRows(toBeStarted);
    }

    /** The cancelling loop of loadImagesForOnscreenCells, in any row order. */
    method CancelOperations(toBeCancelled: set<nat>)
      requires Valid()
      modifies this
      ensures Valid()
      ensures Model() == CancelRows(old(Model()), toBeCancelled)
    {
      var remaining := toBeCancelled;
      while remaining != {}
        invariant remaining <= toBeCancelled
        invariant Model() == CancelRows(old(Model()), toBeCancelled - remaining)
        decreases remaining
      {
        var row :| row in remaining;
        ghost var done := toBeCancelled - remaining;
        CancelRow(row);
        CancelRowsStep(old(Model()), done, row);
        assert done + {row} == toBeCancelled - (remaining - {row});
        remaining := remaining - {row};
      }
      assert toBeCancelled - remaining == toBeCancelled;
    }

    /** One turn of the cancelling loop: cancel the row's operations and drop both entries. */
    method CancelRow(row: nat)
      modifies this
      ensures old(Valid()) ==> Valid()
      ensures Model() == CancelRows(old(Model()), {row})
    {
      ghost var before := Model();
      if row in downloadsInProgress {
        cancelled := cancelled + {downloadsInProgress[row]};
      }
      downloadsInProgress := downloadsInProgress - {row};
      if row in filtrationsInProgress {
        cancelled := cancelled + {filtrationsInProgress[row]};
      }
      filtrationsInProgress := filtrationsInProgress - {row};
      CancelledOneRow(before, row, Model());
    }

    /** The starting loop of loadImagesForOnscreenCells, in ascending row order. */
    method StartOperationsForRows(toBeStarted: set<nat>)
      requires Valid() && Indexable(Model(), toBeStarted)
      modifies this
      ensures Valid()
      ensures Model() == StartRows(old(Model()), toBeStarted)
    {
      var remaining := toBeStarted;
      while remaining != {}
        invariant remaining <= toBeStarted
        invariant Valid() && photos == old(photos)
        invariant StartRows(Model(), remaining) == StartRows(old(Model()), toBeStarted)
        decreases remaining
      {
        ghost var least := Min(remaining);
        var row :| row in remaining && forall k :: k in remaining ==> row <= k;
        assert row == least;
        StartOperations(photos[row], row);
        remaining := remaining - {row};
      }
    }

    method ScrollViewWillBeginDragging()
      requires Valid()
      modifies this
      ensures Valid()
      ensures Model() == Coordination.SuspendAllOperations(old(Model()))
    {
      SuspendAllOperations();
    }

    method ScrollViewDidEndDragging(decelerate: bool, visibleRows: Option<set<nat>>)
      requires Valid() && CanLoad(Model(), visibleRows)
      modifies this
      ensures Valid()
      ensures Model() == Coordination.ScrollViewDidEndDragging(old(Model()), decelerate, visibleRows)
    {
      if !decelerate {
        LoadImagesForOnscreenCells(visibleRows);
        ResumeAllOperations();
      }
    }

    method ScrollViewDidEndDecelerating(visibleRows: Option<set<nat>>)
      requires Valid() && CanLoad(Model(), visibleRows)
      modifies this
      ensures Valid()
      ensures Model() == Coordination.ScrollViewDidEndDecelerating(old(Model()), visibleRows)
    {
      LoadImagesForOnscreenCells(visibleRows);
      ResumeAllOperations();
    }

    /** The admission branch of cellForRowAt for the cell at `row`. */
    method CellForRowAt(row: nat, isDragging: bool, isDecelerating: bool)
      requires Valid() && row < |photos|
      modifies this
      ensures Valid()
      ensures Model() == Coordination.CellForRowAt(old(Model()), row, isDragging, isDecelerating)
    {
      match photos[row]
      case Filtered =>
      case Failed =>
      case New | Downloaded =>
        if !isDragging && !isDecelerating {
          StartOperations(photos[row], row);
        }
    }
  }
}
