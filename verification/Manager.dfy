/**
 The calls that create, end and delete download rows, and what they keep
 between them: internal/download/manager.go and worker.go,
 internal/sabnzbd/handler.go, internal/api/downloads.go. Each call is one
 atomic step on the two buckets, and new ids are unused ones.
 */
module Manager {
  import opened Text
  import opened Parse
  import opened Sanitise
  import opened Titles
  import opened RoundTrip
  import opened Downloads
  import opened Queue
  import opened Store

  datatype Buckets = Buckets(downloads: Bucket, history: Bucket)

  // ---- what each call does ----

  /** The row Enqueue stores: pending, with the identity its title reads back as. */
  function NewRow(id: string, pid: string, quality: string, title: string, now: int): Download {
    var ident := ParseTitle(title);
    Download(id, pid, quality, ident.showName, ident.season, ident.episode, ident.airDate, Pending, NoFailure, false,
             0, 0, 0, 0, 0, 0, "", [], 0, now, 0)
  }

  /** A failure that only means "come back later", which a fresh grab supersedes. */
  predicate Superseded(h: Download) {
    h.status == Failed && h.failureCode in {NotYetAvailable, MetadataUnavailable}
  }

  predicate Holds(b: Bucket, pid: string, quality: string) {
    exists id :: id in b && Matches(b[id], pid, quality)
  }

  /** Every row of the pair in the bucket is superseded. */
  predicate OnlySuperseded(b: Bucket, pid: string, quality: string) {
    forall id :: id in b && Matches(b[id], pid, quality) ==> Superseded(b[id])
  }

  /** Enqueue inserts a row: none is queued, and history has none, or only a superseded one. */
  predicate Inserts(b: Buckets, pid: string, quality: string) {
    !Holds(b.downloads, pid, quality) && OnlySuperseded(b.history, pid, quality)
  }

  function Without(b: Bucket, pid: string, quality: string): Bucket {
    map id | id in b && !Matches(b[id], pid, quality) :: b[id]
  }

  function AfterEnqueue(b: Buckets, row: Download): Buckets {
    if !Inserts(b, row.pid, row.quality) then b
    else Buckets(b.downloads[row.id := row], Without(b.history, row.pid, row.quality))
  }

  /** A row the lookup in history may end on: one of the pair, and not a failed one when another did not fail. */
  predicate Findable(history: Bucket, pid: string, quality: string, id: string) {
    && id in history && Matches(history[id], pid, quality)
    && (history[id].status == Failed ==> forall k :: k in history && Matches(history[k], pid, quality) ==> history[k].status == Failed)
  }

  /**
   What one Enqueue does to any store, however many rows it holds of the pair:
   a queued row answers for it; else the row found in history does, unless that
   is superseded, and then only that one goes; else the new row is inserted.
   */
  ghost predicate Enqueued(before: Buckets, after: Buckets, row: Download, id: string) {
    var inserted := before.downloads[row.id := row];
    if Holds(before.downloads, row.pid, row.quality) then
      after == before && id in before.downloads && Matches(before.downloads[id], row.pid, row.quality)
    else if !Holds(before.history, row.pid, row.quality) then
      id == row.id && after == Buckets(inserted, before.history)
    else
      exists h :: Findable(before.history, row.pid, row.quality, h) &&
        if Superseded(before.history[h]) then id == row.id && after == Buckets(inserted, before.history - {h})
        else id == h && after == before
  }

  function MoveToHistory(b: Buckets, id: string): Buckets {
    if id !in b.downloads then b
    else Buckets(b.downloads - {id}, b.history[id := b.downloads[id]])
  }

  /** failDownload, on a row the queue holds. */
  function AfterFail(b: Buckets, id: string, f: Failure): Buckets
    requires id in b.downloads
  {
    var row := AfterFailure(b.downloads[id], f);
    var put := b.(downloads := b.downloads[id := row]);
    if row.retryable then put else MoveToHistory(put, id)
  }

  /** The end of processDownload. */
  function Finished(row: Download, now: int): Download {
    row.(status := Completed, completedAt := now, failureCode := NoFailure, retryable := false, retryAfter := 0)
  }

  function AfterFinish(b: Buckets, id: string, now: int): Buckets
    requires id in b.downloads
  {
    MoveToHistory(b.(downloads := b.downloads[id := Finished(b.downloads[id], now)]), id)
  }

  /** SABnzbd's queue delete: the row goes, and a failed copy of it stays in history. */
  function AfterQueueDelete(b: Buckets, id: string, now: int): Buckets {
    if id !in b.downloads then b
    else Buckets(b.downloads - {id}, b.history[id := b.downloads[id].(status := Failed, completedAt := now)])
  }

  datatype Call =
    | Enqueue(row: Download)
    | Write(row: Download)
    | Fail(id: string, failure: Failure)
    | Finish(id: string, now: int)
    | Cancel(id: string)
    | QueueDelete(id: string, now: int)
    | DeleteHistory(id: string)
    | ClearHistory

  /** What callers guarantee: a new id is unused. A worker's write is an upsert, of whatever row it holds. */
  predicate Callable(b: Buckets, c: Call) {
    match c
    case Enqueue(row) => row.id !in b.downloads && row.id !in b.history
    case Fail(id, _) => id in b.downloads
    case Finish(id, _) => id in b.downloads
    case _ => true
  }

  function After(b: Buckets, c: Call): Buckets
    requires Callable(b, c)
  {
    match c
    case Enqueue(row) => AfterEnqueue(b, row)
    case Write(row) => b.(downloads := b.downloads[row.id := row])
    case Fail(id, f) => AfterFail(b, id, f)
    case Finish(id, now) => AfterFinish(b, id, now)
    case Cancel(id) => b.(downloads := b.downloads - {id})
    case QueueDelete(id, now) => AfterQueueDelete(b, id, now)
    case DeleteHistory(id) => b.(history := b.history - {id})
    case ClearHistory => b.(history := map[])
  }

  // ---- one row per programme and quality ----

  predicate SamePair(a: Download, b: Download) {
    a.pid == b.pid && a.quality == b.quality
  }

  ghost predicate OnePerPair(b: Buckets) {
    && WellKeyed(b.downloads) && WellKeyed(b.history)
    && (forall i, j :: i in b.downloads && j in b.downloads && SamePair(b.downloads[i], b.downloads[j]) ==> i == j)
    && (forall i, j :: i in b.history && j in b.history && SamePair(b.history[i], b.history[j]) ==> i == j)
    && (forall i, j :: i in b.downloads && j in b.history ==> !SamePair(b.downloads[i], b.history[j]))
  }

  lemma FailureKeepsPair(row: Download, f: Failure)
    ensures SamePair(AfterFailure(row, f), row) && AfterFailure(row, f).id == row.id
  {
    hide RetryDelay;
  }

  /** No other row of the queue, and none of history, is for the row's programme and quality. */
  predicate Alone(b: Buckets, row: Download) {
    && (forall id :: id in b.downloads && id != row.id ==> !SamePair(b.downloads[id], row))
    && (forall id :: id in b.history ==> !SamePair(b.history[id], row))
  }

  /** What a worker's write does to the rule: it is kept if and only if no other row has the pair. */
  lemma WriteKeepsIffAlone(b: Buckets, row: Download)
    requires OnePerPair(b)
    ensures OnePerPair(b.(downloads := b.downloads[row.id := row])) <==> Alone(b, row)
  {
    var put := b.(downloads := b.downloads[row.id := row]);
    assert put.downloads[row.id] == row;
    if id :| id in b.downloads && id != row.id && SamePair(b.downloads[id], row) {
      assert put.downloads[id] == b.downloads[id];
    }
  }

  /** The worker's row is still in the queue, under its own pair. */
  predicate StillQueued(b: Buckets, row: Download) {
    row.id in b.downloads && SamePair(row, b.downloads[row.id])
  }

  lemma QueuedIsAlone(b: Buckets, row: Download)
    requires OnePerPair(b) && StillQueued(b, row)
    ensures Alone(b, row)
  {
  }

  lemma PutKeepsOnePerPair(b: Buckets, row: Download)
    requires OnePerPair(b) && StillQueued(b, row)
    ensures OnePerPair(b.(downloads := b.downloads[row.id := row]))
  {
    hide OnePerPair, Alone;
    QueuedIsAlone(b, row);
    WriteKeepsIffAlone(b, row);
  }

  lemma MoveKeepsOnePerPair(b: Buckets, id: string)
    requires OnePerPair(b)
    ensures OnePerPair(MoveToHistory(b, id))
  {
  }

  lemma EnqueueKeepsOnePerPair(b: Buckets, row: Download)
    requires OnePerPair(b) && row.id !in b.downloads && row.id !in b.history
    ensures OnePerPair(AfterEnqueue(b, row))
  {
  }

  /** Where there is at most one row, that is the call's one effect, and the new row was inserted exactly when it was due. */
  lemma EnqueuedIsAfterEnqueue(before: Buckets, after: Buckets, row: Download, id: string)
    requires OnePerPair(before) && row.id !in before.downloads && row.id !in before.history
    requires Enqueued(before, after, row, id)
    ensures after == AfterEnqueue(before, row) && OnePerPair(after)
    ensures Inserts(before, row.pid, row.quality) <==> id == row.id
  {
    EnqueueKeepsOnePerPair(before, row);
    if !Holds(before.downloads, row.pid, row.quality) && Holds(before.history, row.pid, row.quality) {
      hide Findable, Superseded;
      var h :| Findable(before.history, row.pid, row.quality, h) &&
        if Superseded(before.history[h]) then
          id == row.id && after == Buckets(before.downloads[row.id := row], before.history - {h})
        else id == h && after == before;
      OnlyFindable(before, row.pid, row.quality, h);
    }
  }

  lemma OnlyFindable(b: Buckets, pid: string, quality: string, h: string)
    requires OnePerPair(b) && Findable(b.history, pid, quality, h)
    ensures forall k :: k in b.history ==> (Matches(b.history[k], pid, quality) <==> k == h)
    ensures b.history - {h} == Without(b.history, pid, quality)
    ensures OnlySuperseded(b.history, pid, quality) <==> Superseded(b.history[h])
  {
  }

  /** In any store, however many rows it holds of the pair, one that is queued or did not fail keeps a grab from starting over. */
  lemma LiveRowBlocksGrab(before: Buckets, after: Buckets, row: Download, id: string, live: string)
    requires row.id !in before.downloads && row.id !in before.history && Enqueued(before, after, row, id)
    requires (live in before.downloads && Matches(before.downloads[live], row.pid, row.quality))
             || (live in before.history && Matches(before.history[live], row.pid, row.quality) && before.history[live].status != Failed)
    ensures id != row.id && after == before
  {
  }

  /** Every other call keeps the rule, and a worker's write exactly when no other row has the pair. */
  lemma CallKeepsOnePerPair(b: Buckets, c: Call)
    requires OnePerPair(b) && Callable(b, c)
    ensures OnePerPair(After(b, c)) <==> (c.Write? ==> Alone(b, c.row))
  {
    hide OnePerPair, AfterFailure, AfterEnqueue, Alone;
    match c
    case Enqueue(row) => EnqueueKeepsOnePerPair(b, row);
    case Write(row) => WriteKeepsIffAlone(b, row);
    case Fail(id, f) =>
      OwnId(b, id);
      FailureKeepsPair(b.downloads[id], f);
      var row := AfterFailure(b.downloads[id], f);
      PutKeepsOnePerPair(b, row);
      MoveKeepsOnePerPair(b.(downloads := b.downloads[id := row]), id);
    case Finish(id, now) =>
      OwnId(b, id);
      var row := Finished(b.downloads[id], now);
      PutKeepsOnePerPair(b, row);
      MoveKeepsOnePerPair(b.(downloads := b.downloads[id := row]), id);
    case QueueDelete(id, now) => DeleteKeepsOnePerPair(b, id, now);
    case Cancel(id) => RemovalKeepsOnePerPair(b, id);
    case DeleteHistory(id) => RemovalKeepsOnePerPair(b, id);
    case ClearHistory => RemovalKeepsOnePerPair(b, "");
  }

  lemma OwnId(b: Buckets, id: string)
    requires OnePerPair(b) && id in b.downloads
    ensures b.downloads[id].id == id
  {
  }

  lemma DeleteKeepsOnePerPair(b: Buckets, id: string, now: int)
    requires OnePerPair(b)
    ensures OnePerPair(AfterQueueDelete(b, id, now))
  {
  }

  lemma RemovalKeepsOnePerPair(b: Buckets, id: string)
    requires OnePerPair(b)
    ensures OnePerPair(b.(downloads := b.downloads - {id})) && OnePerPair(b.(history := b.history - {id}))
    ensures OnePerPair(b.(history := map[]))
  {
  }

  /** The states a sequence of calls goes through, from an empty store. */
  ghost predicate Run(states: seq<Buckets>, calls: seq<Call>) {
    && |states| == |calls| + 1
    && states[0] == Buckets(map[], map[])
    && forall i :: 0 <= i < |calls| ==> Callable(states[i], calls[i]) && states[i + 1] == After(states[i], calls[i])
  }

  ghost predicate OnePerPairTo(states: seq<Buckets>, n: nat) {
    n < |states| && forall i :: 0 <= i <= n ==> OnePerPair(states[i])
  }

  ghost predicate WritesAlone(states: seq<Buckets>, calls: seq<Call>, n: nat) {
    n <= |calls| < |states| && forall i :: 0 <= i < n && calls[i].Write? ==> Alone(states[i], calls[i].row)
  }

  /**
   Over every run of calls, queue and history together hold at most one row for
   a programme in a quality if and only if no worker writes a row whose
   programme and quality another row has by then.
   */
  lemma {:induction false} OneRowPerPairIff(states: seq<Buckets>, calls: seq<Call>, n: nat)
    requires Run(states, calls) && n <= |calls|
    ensures OnePerPairTo(states, n) <==> WritesAlone(states, calls, n)
  {
    hide OnePerPair, After, Callable, Alone;
    if n == 0 {
      EmptyIsOnePerPair();
    } else {
      OneRowPerPairIff(states, calls, n - 1);
      if OnePerPair(states[n - 1]) {
        CallKeepsOnePerPair(states[n - 1], calls[n - 1]);
      }
      assert OnePerPairTo(states, n) <==> OnePerPairTo(states, n - 1) && OnePerPair(states[n]);
      assert WritesAlone(states, calls, n) <==>
        WritesAlone(states, calls, n - 1) && (calls[n - 1].Write? ==> Alone(states[n - 1], calls[n - 1].row));
    }
  }

  /** So in every state of every run whose workers write only rows that are still queued, there is at most one row. */
  lemma {:induction false} OneRowPerPair(states: seq<Buckets>, calls: seq<Call>, n: nat)
    requires Run(states, calls) && n <= |calls|
    requires forall i :: 0 <= i < n && calls[i].Write? ==> StillQueued(states[i], calls[i].row)
    ensures OnePerPair(states[n])
  {
    hide OnePerPair, After, Callable, Alone, StillQueued;
    if n == 0 {
      EmptyIsOnePerPair();
    } else {
      OneRowPerPair(states, calls, n - 1);
      if calls[n - 1].Write? {
        QueuedIsAlone(states[n - 1], calls[n - 1].row);
      }
      CallKeepsOnePerPair(states[n - 1], calls[n - 1]);
    }
  }

  /** The run that breaks it: a worker's write arrives after its download was moved to history. */
  lemma LateWriteLeavesTwoRows()
    ensures exists states: seq<Buckets>, calls: seq<Call> :: Run(states, calls) && !OnePerPair(states[|calls|])
  {
    var a := Download("a", "pid", "720p", "", 0, 0, "", Pending, NoFailure, false, 0, 0, 0, 0, 0, 0, "", [], 0, 1, 0);
    var done := Finished(a, 2);
    var states := [ Buckets(map[], map[]), Buckets(map["a" := a], map[]), Buckets(map[], map["a" := done]),
                    Buckets(map["a" := a], map["a" := done]) ];
    var calls := [ Enqueue(a), Finish("a", 2), Write(a) ];
    assert Inserts(states[0], "pid", "720p");
    assert states[1] == After(states[0], calls[0]);
    assert states[2] == After(states[1], calls[1]);
    assert states[3] == After(states[2], calls[2]);
    assert Run(states, calls);
    assert SamePair(states[3].downloads["a"], states[3].history["a"]);
  }

  lemma EmptyIsOnePerPair()
    ensures OnePerPair(Buckets(map[], map[]))
  {
  }

  // ---- what may be grabbed again ----

  /**
   Whether a fresh grab starts over is decided by how the last download ended:
   never after a completion, always after a cancel, and after a permanent
   failure exactly when BBC had not published the programme or could not
   describe it.
   */
  lemma EndedRowsDecideRegrab(b: Buckets, id: string, f: Failure, now: int)
    requires OnePerPair(b) && id in b.downloads
    ensures var row := b.downloads[id];
            && !Inserts(AfterFinish(b, id, now), row.pid, row.quality)
            && Inserts(After(b, Cancel(id)), row.pid, row.quality)
            && (Inserts(AfterFail(b, id, f), row.pid, row.quality) <==>
                  !AfterFailure(row, f).retryable && f.code in {NotYetAvailable, MetadataUnavailable})
  {
    hide RetryDelay;
    var row := b.downloads[id];
    FailureKeepsPair(row, f);
    FailureCodeKept(row, f);
    hide AfterFailure;
    assert row.id == id;
    RegrabAfter(b, id, row.(status := Failed));
    RegrabAfter(b, id, Finished(row, now));
    RegrabAfter(b, id, AfterFailure(row, f));
  }

  lemma FailureCodeKept(row: Download, f: Failure)
    ensures AfterFailure(row, f).status == Failed && AfterFailure(row, f).failureCode == f.code
  {
    hide RetryDelay;
  }

  /** A row of the pair that the queue keeps, or that history takes, decides alone. */
  lemma RegrabAfter(b: Buckets, id: string, row: Download)
    requires OnePerPair(b) && id in b.downloads && row.id == id && SamePair(row, b.downloads[id])
    ensures !Inserts(b.(downloads := b.downloads[id := row]), row.pid, row.quality)
    ensures Inserts(MoveToHistory(b.(downloads := b.downloads[id := row]), id), row.pid, row.quality) <==> Superseded(row)
    ensures Inserts(b.(downloads := b.downloads - {id}), row.pid, row.quality)
    ensures Inserts(Buckets(b.downloads - {id}, b.history[id := row]), row.pid, row.quality) <==> Superseded(row)
  {
    hide Inserts, Superseded, OnePerPair;
    RegrabQueued(b, id, row);
    RegrabArchived(b, id, row);
    assert MoveToHistory(b.(downloads := b.downloads[id := row]), id) == Buckets(b.downloads - {id}, b.history[id := row]);
  }

  lemma RegrabQueued(b: Buckets, id: string, row: Download)
    requires OnePerPair(b) && id in b.downloads && SamePair(row, b.downloads[id])
    ensures !Inserts(b.(downloads := b.downloads[id := row]), row.pid, row.quality)
    ensures Inserts(b.(downloads := b.downloads - {id}), row.pid, row.quality)
  {
    assert Matches(b.downloads[id := row][id], row.pid, row.quality);
  }

  lemma RegrabArchived(b: Buckets, id: string, row: Download)
    requires OnePerPair(b) && id in b.downloads && SamePair(row, b.downloads[id])
    ensures Inserts(Buckets(b.downloads - {id}, b.history[id := row]), row.pid, row.quality) <==> Superseded(row)
  {
    assert Matches(b.history[id := row][id], row.pid, row.quality);
  }

  /**
   SABnzbd's delete leaves a failed copy that keeps the code of an earlier
   attempt: a row deleted while it waits for BBC to publish can be grabbed
   again, any other deleted row cannot.
   */
  lemma DeletedRowsDecideRegrab(b: Buckets, id: string, now: int)
    requires OnePerPair(b) && id in b.downloads
    ensures var row := b.downloads[id];
            Inserts(AfterQueueDelete(b, id, now), row.pid, row.quality) <==>
              row.failureCode in {NotYetAvailable, MetadataUnavailable}
  {
    var row := b.downloads[id];
    assert row.id == id;
    RegrabAfter(b, id, row.(status := Failed, completedAt := now));
  }

  /** However it fails, a grab ends: at most thirty failures leave it in the queue. */
  lemma GrabsEnd(id: string, pid: string, quality: string, title: string, now: int, fs: seq<Failure>)
    requires AllRetried(NewRow(id, pid, quality, title, now), fs)
    ensures |fs| <= 30
  {
    hide ParseTitle, AllRetried;
    FailuresEnd(NewRow(id, pid, quality, title, now), fs);
  }

  // ---- the methods ----

  class Manager {
    const store: Store

    constructor (store: Store)
      ensures this.store == store
    {
      this.store := store;
    }

    ghost function Now(): Buckets
      reads store
    {
      Buckets(store.downloads, store.history)
    }

    /** Enqueue. The id returned is the new row's when one was inserted, else that of the row already there. */
    method Enqueue(pid: string, quality: string, title: string, newId: string, now: int) returns (id: string)
      requires store.Valid()
      requires newId !in store.downloads && newId !in store.history
      modifies store
      ensures store.Valid() && Enqueued(old(Now()), Now(), NewRow(newId, pid, quality, title, now), id)
      ensures OnePerPair(old(Now())) ==>
                && OnePerPair(Now()) && Now() == AfterEnqueue(old(Now()), NewRow(newId, pid, quality, title, now))
                && (Inserts(old(Now()), pid, quality) <==> id == newId)
    {
      hide ParseTitle, OnePerPair, Superseded, AfterEnqueue, Inserts;
      ghost var before, row := Now(), NewRow(newId, pid, quality, title, now);
      var existing := store.FindDownload(pid, quality);
      if existing.Some? {
        id := existing.value.id;
      } else {
        var hist := store.FindHistory(pid, quality);
        if hist.Some? && !Superseded(hist.value) {
          assert Findable(store.history, pid, quality, hist.value.id);
          id := hist.value.id;
        } else {
          if hist.Some? {
            assert Findable(store.history, pid, quality, hist.value.id);
            store.history := store.history - {hist.value.id};
          }
          store.downloads := store.downloads[newId := NewRow(newId, pid, quality, title, now)];
          id := newId;
        }
      }
      assert Enqueued(before, Now(), row, id);
      if OnePerPair(before) {
        EnqueuedIsAfterEnqueue(before, Now(), row, id);
      }
    }

    /** The row failDownload leaves, updated field by field. */
    method Fail(given: Download, f: Failure) returns (dl: Download)
      ensures dl == AfterFailure(given, f)
    {
      if f.code == Stalled {
        dl := FailStalled(given, f);
      } else if f.code in {GeoBlocked, Expired, NotYetAvailable, MetadataUnavailable} {
        dl := FailByBBC(given, f);
      } else {
        dl := FailOrdinarily(given, f);
      }
    }

    /** The case of a stall. */
    method FailStalled(given: Download, f: Failure) returns (dl: Download)
      requires f.code == Stalled
      ensures dl == AfterFailure(given, f)
    {
      hide ExponentialBackoff;
      dl := given.(status := Failed, failureCode := f.code, stallCount := given.stallCount + 1);
      if f.cooling && dl.stallCredits < MAX_STALL_CREDITS {
        dl := dl.(stallCount := dl.stallCount - 1, stallCredits := dl.stallCredits + 1);
      }
      dl := dl.(retryable := dl.stallCount < MAX_STALLS);
      if dl.retryable {
        var backoff := TripledBackoff(dl.stallCount);
        dl := dl.(retryAfter := f.now + backoff);
      } else {
        dl := dl.(completedAt := f.now);
      }
    }

    /** The cases of a programme the BBC refuses, has not published or cannot describe. */
    method FailByBBC(given: Download, f: Failure) returns (dl: Download)
      requires f.code in {GeoBlocked, Expired, NotYetAvailable, MetadataUnavailable}
      ensures dl == AfterFailure(given, f)
    {
      dl := given.(status := Failed, failureCode := f.code);
      if f.code == MetadataUnavailable {
        dl := dl.(metadataFailures := dl.metadataFailures + 1);
        dl := dl.(retryable := dl.metadataFailures < MAX_METADATA_FAILURES);
      } else {
        dl := dl.(retryCount := dl.retryCount + 1);
        dl := dl.(retryable := f.code == NotYetAvailable && dl.retryCount < MAX_NOT_YET_AVAILABLE_RETRIES);
      }
      if dl.retryable {
        dl := dl.(retryAfter := f.now + NOT_YET_AVAILABLE_RETRY_INTERVAL);
      } else {
        dl := dl.(completedAt := f.now);
      }
    }

    /** Every other code. */
    method FailOrdinarily(given: Download, f: Failure) returns (dl: Download)
      requires f.code !in {Stalled, GeoBlocked, Expired, NotYetAvailable, MetadataUnavailable}
      ensures dl == AfterFailure(given, f)
    {
      hide ExponentialBackoff, AddFailedSupplier;
      dl := given.(status := Failed, failureCode := f.code, retryCount := given.retryCount + 1);
      if f.refusedBy.Some? {
        dl := dl.(failedSuppliers := AddFailedSupplier(dl.failedSuppliers, f.refusedBy.value));
      } else if f.code == FFmpeg || f.code == Truncated {
        dl := dl.(cdnFailures := dl.cdnFailures + 1);
      }
      dl := dl.(retryable := dl.retryCount < MAX_RETRIES);
      if dl.retryable {
        var backoff := TripledBackoff(dl.retryCount);
        dl := dl.(retryAfter := f.now + backoff);
      } else {
        dl := dl.(completedAt := f.now);
      }
    }

    /** The backoff loop of failDownload and stallBackoff. */
    method TripledBackoff(count: nat) returns (backoff: int)
      ensures backoff == ExponentialBackoff(count)
    {
      backoff := 30 * SECOND;
      var i := 1;
      while i < count
        invariant 1 <= i <= if count == 0 then 1 else count
        invariant backoff == 30 * SECOND * Pow3(i - 1)
      {
        backoff, i := backoff * 3, i + 1;
      }
    }

    /** failDownload on a row of the queue. */
    method FailDownload(id: string, f: Failure)
      requires store.Valid() && id in store.downloads
      modifies store
      ensures store.Valid() && Now() == AfterFail(old(Now()), id, f)
      ensures OnePerPair(old(Now())) ==> OnePerPair(Now())
    {
      hide AfterFailure, OnePerPair;
      if OnePerPair(Now()) {
        CallKeepsOnePerPair(Now(), Call.Fail(id, f));
      }
      FailureKeepsPair(store.downloads[id], f);
      var dl := Fail(store.downloads[id], f);
      store.downloads := store.downloads[id := dl];
      if !dl.retryable {
        store.history := store.history[id := dl];
        store.downloads := store.downloads - {id};
      }
    }
  }

  // ---- the queue follows the episodes ----

  /**
   Two grabs of one show, printed with the builder the feed uses, are claimed
   in season and episode order, whatever their ids, subtitles, qualities and
   arrival times.
   */
  lemma GrabsAreClaimedInEpisodeOrder(name: string, ep1: string, s1: nat, n1: nat, q1: string, ep2: string, s2: nat, n2: nat, q2: string,
                                      id1: string, pid1: string, t1: int, id2: string, pid2: string, t2: int)
    requires InMarkerRange(s1, n1) && InMarkerRange(s2, n2) && (s1, n1) != (s2, n2)
    requires NameUnmarked(name)
    ensures var a := NewRow(id1, pid1, q1, BuildSxxExxTitle(name, ep1, s1, n1, q1), t1);
            var b := NewRow(id2, pid2, q2, BuildSxxExxTitle(name, ep2, s2, n2, q2), t2);
            Before(a, b) <==> s1 < s2 || (s1 == s2 && n1 < n2)
  {
    hide ParseTitle, BuildSxxExxTitle, SanitiseForTitle, HasMarker;
    NumberedTitleRoundTrip(name, ep1, s1, n1, q1);
    NumberedTitleRoundTrip(name, ep2, s2, n2, q2);
  }

  /** The calendar order of two dates. */
  predicate Earlier(a: string, b: string)
    requires IsoDate(a) && IsoDate(b)
  {
    var y, m := Value(a[..4]) - Value(b[..4]), Value(a[5..7]) - Value(b[5..7]);
    y < 0 || (y == 0 && (m < 0 || (m == 0 && Value(a[8..]) < Value(b[8..]))))
  }

  lemma IsoParts(d: string)
    requires IsoDate(d)
    ensures d == d[..4] + ("-" + (d[5..7] + ("-" + d[8..])))
    ensures AllDigits(d[..4]) && AllDigits(d[5..7]) && AllDigits(d[8..])
  {
  }

  lemma DateOrderIsTextual(a: string, b: string)
    requires IsoDate(a) && IsoDate(b)
    ensures LexLess(a, b) <==> Earlier(a, b)
    ensures a == b <==> !Earlier(a, b) && !Earlier(b, a)
  {
    hide LexLess;
    IsoParts(a);
    IsoParts(b);
    var x, y := a[5..7] + ("-" + a[8..]), b[5..7] + ("-" + b[8..]);
    LexLessConcat(a[..4], b[..4], "-" + x, "-" + y);
    LexLessConcat("-", "-", x, y);
    LexLessConcat(a[5..7], b[5..7], "-" + a[8..], "-" + b[8..]);
    LexLessConcat("-", "-", a[8..], b[8..]);
    LexTotal("-", "-");
    LexIsNumeric(a[..4], b[..4]);
    LexIsNumeric(a[5..7], b[5..7]);
    LexIsNumeric(a[8..], b[8..]);
  }

  /** A title by date is read back with its date, so grabs of a daily show are claimed in the order they aired. */
  lemma GrabsAreClaimedInDateOrder(name: string, ep1: string, d1: string, q1: string, ep2: string, d2: string, q2: string,
                                   id1: string, pid1: string, t1: int, id2: string, pid2: string, t2: int)
    requires IsoDate(d1) && IsoDate(d2) && d1 != d2 && !HasMarker(q1) && !HasMarker(q2)
    requires NameUnmarked(name) && !HasDate(SanitiseForTitle(name))
    requires !HasMarker(DateSubtitle(ep1)) && !HasMarker(DateSubtitle(ep2))
    ensures var a := NewRow(id1, pid1, q1, BuildDateTitle(name, ep1, d1, q1), t1);
            var b := NewRow(id2, pid2, q2, BuildDateTitle(name, ep2, d2, q2), t2);
            Before(a, b) <==> Earlier(d1, d2)
  {
    hide ParseTitle, BuildDateTitle, SanitiseForTitle, HasMarker, HasDate, DateSubtitle, IsoDate, LexLess;
    DatedTitleRoundTrip(name, ep1, d1, q1);
    DatedTitleRoundTrip(name, ep2, d2, q2);
    DateOrderIsTextual(d1, d2);
  }
}
