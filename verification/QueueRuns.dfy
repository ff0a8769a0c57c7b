/**
 What an operator's arrangement of the queue survives: any run of arrivals,
 claims and removals after a move.
 */
module QueueRuns {
  import opened Text
  import opened Downloads
  import opened Queue
  import opened Store

  /** A pending row arrives, a row is written with another status (a claim, progress, a failure), or a row goes. */
  datatype Event = Arrive(row: Download) | Write(row: Download) | Remove(id: string)

  /** Arrivals are new and unranked, and nothing returns to pending. */
  predicate Legal(b: Bucket, e: Event) {
    match e
    case Arrive(row) => row.id !in b && row.status == Pending && row.priority == 0
    case Write(row) => row.id in b && row.status != Pending
    case Remove(_) => true
  }

  function After(b: Bucket, e: Event): Bucket {
    match e
    case Arrive(row) => b[row.id := row]
    case Write(row) => b[row.id := row]
    case Remove(id) => b - {id}
  }

  function AfterAll(b: Bucket, es: seq<Event>): Bucket {
    if es == [] then b else After(AfterAll(b, es[..|es| - 1]), es[|es| - 1])
  }

  predicate LegalRun(b: Bucket, es: seq<Event>) {
    es != [] ==> LegalRun(b, es[..|es| - 1]) && Legal(AfterAll(b, es[..|es| - 1]), es[|es| - 1])
  }

  /** The arranged rows that are still pending, in their arranged order. */
  ghost function StillPending(q: seq<Download>, b: Bucket): seq<Download> {
    if q == [] then []
    else if q[0].id in b && b[q[0].id] == q[0] then [q[0]] + StillPending(q[1..], b)
    else StillPending(q[1..], b)
  }

  /** The pending rows that were not there to be arranged. */
  ghost function Arrivals(q: seq<Download>, b: Bucket): set<Download> {
    PendingRows(b) - Rows(q)
  }

  /** Every row of the queue was given a rank. */
  predicate Ranked(q: seq<Download>) {
    forall r :: r in q ==> r.priority > 0
  }

  ghost predicate ArrangedOrNew(q: seq<Download>, b: Bucket) {
    WellKeyed(b) && forall r :: r in PendingRows(b) ==> r in q || r.priority == 0
  }

  lemma {:induction false} RunKeepsArrangement(b: Bucket, es: seq<Event>)
    requires WellKeyed(b) && LegalRun(b, es)
    ensures ArrangedOrNew(PendingQueue(b), AfterAll(b, es))
  {
    if es == [] {
      QueueIds(PendingQueue(b), b);
    } else {
      RunKeepsArrangement(b, es[..|es| - 1]);
    }
  }

  lemma {:induction false} StillPendingSorted(q: seq<Download>, b: Bucket)
    requires Sorted(q)
    ensures Sorted(StillPending(q, b))
    ensures forall r :: r in StillPending(q, b) <==> r in q && r.id in b && b[r.id] == r
  {
    if q != [] {
      assert q == [q[0]] + q[1..];
      StillPendingSorted(q[1..], b);
      var rest := StillPending(q[1..], b);
      forall j | 0 <= j < |rest|
        ensures Before(q[0], rest[j])
      {
        assert rest[j] in rest;
        assert rest[j] in q[1..];
      }
    }
  }

  /**
   A queue whose rows are all ranked keeps its order through any run of
   arrivals, claims, failures and removals: the pending queue is the ranked
   rows that are still pending, in that order, followed by the arrivals in the
   comparator's.
   */
  lemma ArrangementSurvives(b: Bucket, es: seq<Event>)
    requires WellKeyed(b) && LegalRun(b, es) && Ranked(PendingQueue(b))
    ensures var q, c := PendingQueue(b), AfterAll(b, es);
            && WellKeyed(c) && DistinctIds(Arrivals(q, c))
            && PendingQueue(c) == StillPending(q, c) + QueueOf(Arrivals(q, c))
            && forall r :: r in Arrivals(q, c) ==> r.priority == 0
  {
    hide Before, LegalRun, AfterAll, PendingQueue;
    var q, c := PendingQueue(b), AfterAll(b, es);
    RunKeepsArrangement(b, es);
    QueueIds(q, b);
    PendingDistinct(c);
    KeptThenLate(q, c);
  }

  lemma KeptThenLate(q: seq<Download>, c: Bucket)
    requires ArrangedOrNew(q, c) && Sorted(q) && Ranked(q) && DistinctIds(PendingRows(c))
    requires forall r :: r in q ==> r.status == Pending
    ensures PendingQueue(c) == StillPending(q, c) + QueueOf(Arrivals(q, c))
    ensures forall r :: r in Arrivals(q, c) ==> r.priority == 0
  {
    hide PendingQueue;
    StillPendingSorted(q, c);
    var kept, late := StillPending(q, c), QueueOf(Arrivals(q, c));
    forall i, j | 0 <= i < |kept| && 0 <= j < |late|
      ensures Before(kept[i], late[j])
    {
      assert kept[i] in kept;
      assert late[j] in Rows(late);
    }
    JoinedQueue(kept, late, q, c);
    QueueIsUnique(kept + late, PendingQueue(c), PendingRows(c));
  }

  lemma JoinedQueue(kept: seq<Download>, late: seq<Download>, q: seq<Download>, c: Bucket)
    requires WellKeyed(c) && Sorted(kept) && Sorted(late) && Rows(late) == Arrivals(q, c)
    requires forall r :: r in kept <==> r in q && r.id in c && c[r.id] == r
    requires forall r :: r in q ==> r.status == Pending
    requires forall i, j :: 0 <= i < |kept| && 0 <= j < |late| ==> Before(kept[i], late[j])
    ensures IsQueue(kept + late, PendingRows(c))
  {
    forall r
      ensures r in kept + late <==> r in PendingRows(c)
    {
      assert r in late <==> r in Rows(late);
      assert r in kept + late <==> r in kept || r in late;
    }
  }

  /** A move ranks every row it arranges. */
  lemma MoveRanks(q: seq<Download>, id: string, op: string)
    requires exists r :: r in q && r.id == id
    ensures Ranked(Rearranged(q, id, op))
  {
  }

  /** So what a move arranges is what is claimed, row after row, however much arrives behind it, until the next move. */
  lemma MoveSurvives(before: Bucket, moved: Bucket, id: string, op: string, es: seq<Event>)
    requires WellKeyed(before) && WellKeyed(moved) && LegalRun(moved, es)
    requires exists r :: r in PendingQueue(before) && r.id == id
    requires PendingQueue(moved) == Rearranged(PendingQueue(before), id, op)
    ensures var arranged, later := Rearranged(PendingQueue(before), id, op), AfterAll(moved, es);
            && WellKeyed(later) && DistinctIds(Arrivals(arranged, later))
            && PendingQueue(later) == StillPending(arranged, later) + QueueOf(Arrivals(arranged, later))
  {
    hide LegalRun, AfterAll, PendingQueue, Rearranged;
    MoveRanks(PendingQueue(before), id, op);
    ArrangementSurvives(moved, es);
  }

  /**
   Rows of one rank, arrivals above all, are claimed show by show: between two
   rows of a show come only rows of that show, in season and episode order. So
   two grabs that arrive interleaved are not downloaded interleaved.
   */
  lemma ShowsStayTogether(q: seq<Download>, i: nat, k: nat, j: nat)
    requires Sorted(q) && i < k < j < |q| && q[i].priority == q[j].priority && q[i].showName == q[j].showName
    ensures q[k].showName == q[i].showName && q[k].priority == q[i].priority
    ensures q[i].season <= q[k].season <= q[j].season
    ensures q[i].season == q[k].season ==> q[i].episode <= q[k].episode
  {
    var a, b, c := q[i], q[k], q[j];
    assert Before(a, b) && Before(b, c);
    if b.showName != a.showName {
      LexTotal(a.showName, b.showName);
      LexTotal(b.showName, c.showName);
    }
  }
}
