/**
 What a grab is once Enqueue has stored it: internal/download/manager.go, read
 by the queue and by the workers' poll.
 */
module Grabs {
  import opened Downloads
  import opened Queue
  import opened Store
  import opened Manager
  import Claims
  import QueueRuns

  /**
   After a grab that inserts, its row is in the pending queue under its own id,
   for its programme and quality, with every budget whole, and a worker that
   lists it may claim it at once and at any time.
   */
  lemma GrabIsClaimable(before: Buckets, after: Buckets, id: string, pid: string, quality: string, title: string,
                        created: int, now: int)
    requires WellKeyed(before.downloads) && id !in before.downloads && id !in before.history
    requires Enqueued(before, after, NewRow(id, pid, quality, title, created), id)
    ensures var row := NewRow(id, pid, quality, title, created);
            && row.id == id && Matches(row, pid, quality) && Fresh(row)
            && WellKeyed(after.downloads) && row in PendingQueue(after.downloads) && Claims.Claimable(row, now)
  {
    GrabArrives(before, after, id, pid, quality, title, created);
    var row := NewRow(id, pid, quality, title, created);
    QueueIds(PendingQueue(after.downloads), after.downloads);
    assert after.downloads[id] == row;
  }

  /** The insertion is a legal arrival, so what the queue keeps through any run of arrivals holds of grabs. */
  lemma GrabArrives(before: Buckets, after: Buckets, id: string, pid: string, quality: string, title: string, created: int)
    requires WellKeyed(before.downloads) && id !in before.downloads && id !in before.history
    requires Enqueued(before, after, NewRow(id, pid, quality, title, created), id)
    ensures var e := QueueRuns.Arrive(NewRow(id, pid, quality, title, created));
            QueueRuns.Legal(before.downloads, e) && after.downloads == QueueRuns.After(before.downloads, e)
    ensures WellKeyed(after.downloads)
  {
  }

  /** A grab joins an arranged queue at its end. */
  lemma GrabJoinsAtTheEnd(before: Buckets, after: Buckets, id: string, pid: string, quality: string, title: string, created: int)
    requires WellKeyed(before.downloads) && id !in before.downloads && id !in before.history
    requires Enqueued(before, after, NewRow(id, pid, quality, title, created), id)
    requires QueueRuns.Ranked(PendingQueue(before.downloads))
    ensures WellKeyed(after.downloads)
    ensures PendingQueue(after.downloads) == PendingQueue(before.downloads) + [NewRow(id, pid, quality, title, created)]
  {
    hide Before, Enqueued, PendingQueue;
    var row, q := NewRow(id, pid, quality, title, created), PendingQueue(before.downloads);
    GrabArrives(before, after, id, pid, quality, title, created);
    QueueIds(q, before.downloads);
    assert row.priority == 0 && row.status == Pending;
    forall i | 0 <= i < |q|
      ensures Before(q[i], row)
    {
      assert q[i] in q;
      RankedFirst(q[i], row);
    }
    assert IsQueue(q + [row], PendingRows(after.downloads)) by {
      ArrivedRows(q, before.downloads, after.downloads, row);
    }
    QueueIsUnique(q + [row], PendingQueue(after.downloads), PendingRows(after.downloads));
  }

  lemma RankedFirst(a: Download, b: Download)
    requires a.priority > b.priority
    ensures Before(a, b)
  {
  }

  lemma ArrivedRows(q: seq<Download>, before: Bucket, after: Bucket, row: Download)
    requires IsQueue(q, PendingRows(before)) && row.id !in before && after == before[row.id := row] && row.status == Pending
    requires forall i :: 0 <= i < |q| ==> Before(q[i], row)
    ensures IsQueue(q + [row], PendingRows(after))
  {
    hide Before;
    forall r
      ensures r in q + [row] <==> r in PendingRows(after)
    {
      assert r in q <==> r in Rows(q);
      assert r in q + [row] <==> r in q || r == row;
      if r in PendingRows(before) {
        var id :| id in before && before[id].status == Pending && before[id] == r;
        assert after[id] == r;
      }
      if r == row {
        assert after[row.id] == r;
      }
      if r in PendingRows(after) {
        var id :| id in after && after[id].status == Pending && after[id] == r;
        assert id == row.id || before[id] == r;
      }
    }
  }

  // ---- a retry ----

  /** A failed row the queue keeps is claimed again when its wait is over, not before; one whose budget is spent never. */
  lemma RetriedAfterItsWait(dl: Download, f: Failure, now: int)
    requires f.now > 0
    ensures Claims.Claimable(AfterFailure(dl, f), now) <==>
              HasBudget(Charged(dl, f), f.code) && now > f.now + RetryDelay(Charged(dl, f), f.code)
  {
    hide AddFailedSupplier;
    DelayIsPositive(Charged(dl, f), f.code);
    hide RetryDelay;
  }

  lemma DelayIsPositive(d: Download, code: FailCode)
    ensures RetryDelay(d, code) > 0
  {
    Pow3IsPositive(if d.stallCount == 0 then 0 else d.stallCount - 1);
    Pow3IsPositive(if d.retryCount == 0 then 0 else d.retryCount - 1);
  }

  lemma {:induction false} Pow3IsPositive(n: nat)
    ensures Pow3(n) > 0
  {
    if n > 0 {
      Pow3IsPositive(n - 1);
    }
  }

  // ---- what counts as the same grab ----

  /** A grab is stored exactly when no row of the same programme in the same quality stands in its way; rows of it in another quality, or of another programme, never do. */
  lemma OnlyTheSameGrabStandsInTheWay(before: Buckets, after: Buckets, row: Download, id: string)
    requires row.id !in before.downloads && row.id !in before.history && Enqueued(before, after, row, id)
    ensures (forall k :: k in before.downloads ==> before.downloads[k].pid != row.pid || before.downloads[k].quality != row.quality)
            && (forall k :: k in before.history ==> before.history[k].pid != row.pid || before.history[k].quality != row.quality)
            ==> id == row.id && after == Buckets(before.downloads[row.id := row], before.history)
    ensures (exists k :: k in before.downloads && before.downloads[k].pid == row.pid && before.downloads[k].quality == row.quality)
            ==> after == before && id in before.downloads
                && before.downloads[id].pid == row.pid && before.downloads[id].quality == row.quality
  {
  }

  /** A completed download is in history as completed, without the failure of an earlier attempt, and no grab of it starts over. */
  lemma CompletionIsFinal(b: Buckets, id: string, now: int, after: Buckets, row: Download, given: string)
    requires id in b.downloads && row.pid == b.downloads[id].pid && row.quality == b.downloads[id].quality
    requires row.id !in AfterFinish(b, id, now).downloads && row.id !in AfterFinish(b, id, now).history
    requires Enqueued(AfterFinish(b, id, now), after, row, given)
    ensures var done := AfterFinish(b, id, now);
            && id !in done.downloads && id in done.history && done.history[id].status == Completed
            && done.history[id].failureCode == NoFailure && !done.history[id].retryable && done.history[id].completedAt == now
    ensures after == AfterFinish(b, id, now) && given != row.id
  {
    LiveRowBlocksGrab(AfterFinish(b, id, now), after, row, given, id);
  }
}
