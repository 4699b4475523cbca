/**
 * Properties that relate several coordination steps: reconciling twice,
 * completions arriving after a row scrolled away, and the one-live-operation
 * rule of the in-progress tables.
 */
module CoordinationProperties {
  import opened Records
  import opened Coordination

  /**
   * Reconciling a second time with the same visible rows, with no
   * completion in between, cancels nothing and registers nothing.
   */
  lemma ReconcileIdempotent(c: Coordinator, visible: set<nat>)
    requires CanReconcile(c, visible)
    ensures CanReconcile(Reconcile(c, visible), visible)
    ensures Reconcile(Reconcile(c, visible), visible) == Reconcile(c, visible)
  {
    var r := Reconcile(c, visible);
    var pending := r.PendingRows();
    assert pending - visible == {};
    assert CancelRows(r, {}) == r by {
      assert r.downloads.inProgress - {} == r.downloads.inProgress;
      assert r.filtrations.inProgress - {} == r.filtrations.inProgress;
      assert Entries(r.downloads.inProgress, {}) == {};
      assert Entries(r.filtrations.inProgress, {}) == {};
    }
    StartRowsInert(r, visible - pending);
  }

  /** A row never has two live operations of the same stage. */
  lemma AtMostOneInFlight(c: Coordinator, s: Stage, a: Operation, b: Operation)
    requires Valid(c)
    requires a in c.QueueFor(s).operations && a !in c.cancelled
    requires b in c.QueueFor(s).operations && b !in c.cancelled
    requires a.row == b.row
    ensures a == b
  {
    assert StageValid(c, s);
  }

  /**
   * cancel() does not take an operation off its queue. When a row with a
   * queued download scrolls away and back while its record is still new,
   * the cancelled download and its replacement are both queued: two
   * distinct download operations for one row, only one of them live.
   */
  lemma {:induction false} ScrollAwayAndBackQueuesTwoDownloads(c: Coordinator, row: nat, gone: set<nat>, back: set<nat>)
    requires Valid(c) && Indexable(c, gone + back)
    requires row < |c.photos| && row in c.downloads.inProgress && c.photos[row] == New
    requires row !in gone && row in back
    ensures var r := Reconcile(Reconcile(c, gone), back);
            exists a, b ::
              && a in r.downloads.operations && b in r.downloads.operations
              && a.row == row && b.row == row && a != b
              && a in r.cancelled && b !in r.cancelled
  {
    var a := c.downloads.inProgress[row];
    assert StageValid(c, Download);
    var r1 := Reconcile(c, gone);
    assert a in r1.cancelled && a in r1.downloads.operations;
    assert row in back - r1.PendingRows();
    var r := Reconcile(r1, back);
    var b := r.downloads.inProgress[row];
    assert StageValid(r, Download);
    assert a in r.downloads.operations && a in r.cancelled;
  }

  /**
   * A download registered for a row that then scrolls off screen is
   * cancelled by the reconciliation; when its completion block finally runs
   * it leaves both tables and every record as they were.
   */
  lemma LateCompletionAfterScrollAway(c: Coordinator, visible: set<nat>, row: nat)
    requires Valid(c) && CanReconcile(c, visible)
    requires row in c.downloads.inProgress && row !in visible
    ensures var op := c.downloads.inProgress[row];
            var r := Reconcile(c, visible);
            && op in r.cancelled && op in r.downloads.operations
            && Complete(r, op).downloads.inProgress == r.downloads.inProgress
            && Complete(r, op).filtrations.inProgress == r.filtrations.inProgress
            && Complete(r, op).photos == r.photos
  {
    var op := c.downloads.inProgress[row];
    var r := Reconcile(c, visible);
    assert StageValid(c, Download);
    assert op in c.downloads.operations;
    assert op.stage == Download;
    assert r.QueueFor(Other(op.stage)) == r.filtrations;
  }

  /**
   * Three new photos, only row 2 visible: a download is admitted for row 2
   * alone. Once it completes and the record is downloaded, the next
   * reconciliation with row 2 still visible admits its filtration.
   */
  lemma DownloadThenFiltration()
    ensures var c0 := Initial([New, New, New]);
            var c1 := Reconcile(c0, {2});
            && c1.downloads.inProgress.Keys == {2} && c1.filtrations.inProgress == map[]
            && var c2 := Complete(c1, c1.downloads.inProgress[2]);
               var c3 := c2.(photos := c2.photos[2 := Downloaded]);
               var c4 := Reconcile(c3, {2});
               && c2.PendingRows() == {}
               && c4.downloads.inProgress == map[] && c4.filtrations.inProgress.Keys == {2}
  {
    var c0 := Initial([New, New, New]);
    assert c0.PendingRows() == {};
    var c1 := Reconcile(c0, {2});
    assert c1.downloads.inProgress.Keys == {2};
    var op := c1.downloads.inProgress[2];
    assert StageValid(c1, Download);
    assert op in c1.QueueFor(op.stage).operations && op !in c1.cancelled && op.row == 2;
    var c2 := Complete(c1, op);
    assert c2.PendingRows() == {};
    var c3 := c2.(photos := c2.photos[2 := Downloaded]);
    assert c3.PendingRows() == {};
    var c4 := Reconcile(c3, {2});
    assert c4.filtrations.inProgress.Keys == {2};
  }
}
