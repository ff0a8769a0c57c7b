/**
 The download rows: internal/store/types.go, and what a failure does to one:
 internal/download/worker.go, failDownload.
 */
module Downloads {
  import opened Text

  datatype Status = Pending | Resolving | Downloading | Converting | Completed | Failed

  datatype FailCode =
    | NoFailure | GeoBlocked | Expired | Unavailable | NotYetAvailable | FFmpeg | Truncated | Stalled
    | Timeout | Unknown | MetadataUnavailable

  /** store.Download: the fields the queue, the retries and the dedup read or write. */
  datatype Download = Download(
    id: string,
    pid: string,
    quality: string,
    showName: string,
    season: int,
    episode: int,
    airDate: string,
    status: Status,
    failureCode: FailCode,
    retryable: bool,
    retryCount: nat,
    retryAfter: int,
    cdnFailures: nat,
    stallCount: nat,
    stallCredits: nat,
    metadataFailures: nat,
    supplier: string,
    failedSuppliers: seq<string>,
    priority: int,
    createdAt: int,
    completedAt: int)

  const SECOND := 1_000_000_000
  const MAX_RETRIES := 3
  const MAX_NOT_YET_AVAILABLE_RETRIES := 12
  const NOT_YET_AVAILABLE_RETRY_INTERVAL := 300 * SECOND
  const MAX_METADATA_FAILURES := 12
  const MAX_STALLS := 3
  const MAX_STALL_CREDITS := 6

  /** A failed attempt: its code, the supplier that refused the stream if one did, whether a cooldown is running, and when. */
  datatype Failure = Failure(code: FailCode, refusedBy: Option<string>, cooling: bool, now: int)

  function AddFailedSupplier(failed: seq<string>, supplier: string): seq<string> {
    if supplier == "" || supplier in failed then failed else failed + [supplier]
  }

  function Pow3(n: nat): nat {
    if n == 0 then 1 else 3 * Pow3(n - 1)
  }

  /** 30 seconds, tripled for every count after the first. */
  function ExponentialBackoff(count: nat): int {
    30 * SECOND * Pow3(if count == 0 then 0 else count - 1)
  }

  /** The row after its counters have been charged for a failure. */
  function Charged(dl: Download, f: Failure): Download {
    var d := dl.(status := Failed, failureCode := f.code);
    if f.code == Stalled then
      if f.cooling && d.stallCredits < MAX_STALL_CREDITS then d.(stallCredits := d.stallCredits + 1)
      else d.(stallCount := d.stallCount + 1)
    else if f.code == MetadataUnavailable then
      d.(metadataFailures := d.metadataFailures + 1)
    else
      var e := d.(retryCount := d.retryCount + 1);
      if f.code in {GeoBlocked, Expired, NotYetAvailable} then e
      else if f.refusedBy.Some? then e.(failedSuppliers := AddFailedSupplier(e.failedSuppliers, f.refusedBy.value))
      else if f.code in {FFmpeg, Truncated} then e.(cdnFailures := e.cdnFailures + 1)
      else e
  }

  /** Whether the charged row may be tried again. */
  predicate HasBudget(d: Download, code: FailCode) {
    match code
    case Stalled => d.stallCount < MAX_STALLS
    case GeoBlocked => false
    case Expired => false
    case NotYetAvailable => d.retryCount < MAX_NOT_YET_AVAILABLE_RETRIES
    case MetadataUnavailable => d.metadataFailures < MAX_METADATA_FAILURES
    case _ => d.retryCount < MAX_RETRIES
  }

  function RetryDelay(d: Download, code: FailCode): int {
    match code
    case Stalled => ExponentialBackoff(d.stallCount)
    case NotYetAvailable => NOT_YET_AVAILABLE_RETRY_INTERVAL
    case MetadataUnavailable => NOT_YET_AVAILABLE_RETRY_INTERVAL
    case _ => ExponentialBackoff(d.retryCount)
  }

  /** failDownload: the row it leaves, in the queue if retryable, else in history. */
  function AfterFailure(dl: Download, f: Failure): Download {
    var d := Charged(dl, f);
    if HasBudget(d, f.code) then d.(retryable := true, retryAfter := f.now + RetryDelay(d, f.code))
    else d.(retryable := false, completedAt := f.now)
  }

  // ---- the retry budgets ----

  /** Every failure charges exactly one of the four counters. */
  function Spent(dl: Download): nat {
    dl.retryCount + dl.stallCount + dl.stallCredits + dl.metadataFailures
  }

  predicate Fresh(dl: Download) {
    Spent(dl) == 0 && dl.cdnFailures == 0 && dl.failedSuppliers == []
  }

  predicate WithinBudgets(dl: Download) {
    dl.retryCount <= 11 && dl.stallCount <= 2 && dl.stallCredits <= 6 && dl.metadataFailures <= 11
  }

  function AfterFailures(dl: Download, fs: seq<Failure>): Download {
    if fs == [] then dl else AfterFailure(AfterFailures(dl, fs[..|fs| - 1]), fs[|fs| - 1])
  }

  /** Every one of the failures left the row retryable. */
  predicate AllRetried(dl: Download, fs: seq<Failure>) {
    fs != [] ==> AllRetried(dl, fs[..|fs| - 1]) && AfterFailures(dl, fs).retryable
  }

  lemma OneFailure(dl: Download, f: Failure)
    ensures Spent(AfterFailure(dl, f)) == Spent(dl) + 1
    ensures WithinBudgets(dl) && AfterFailure(dl, f).retryable ==> WithinBudgets(AfterFailure(dl, f))
  {
  }

  /** Whatever the failures and whenever cooldowns freeze them, the counters add up to their number and a row still retried is within every budget. */
  lemma {:induction false} BudgetsHold(dl: Download, fs: seq<Failure>)
    requires Fresh(dl)
    ensures Spent(AfterFailures(dl, fs)) == |fs|
    ensures AllRetried(dl, fs) ==> WithinBudgets(AfterFailures(dl, fs))
  {
    if fs != [] {
      BudgetsHold(dl, fs[..|fs| - 1]);
      OneFailure(AfterFailures(dl, fs[..|fs| - 1]), fs[|fs| - 1]);
    }
  }

  /** Every run of failures ends: at most 30 leave a download retryable. */
  lemma FailuresEnd(dl: Download, fs: seq<Failure>)
    requires Fresh(dl) && AllRetried(dl, fs)
    ensures |fs| <= 30
  {
    BudgetsHold(dl, fs);
  }

  // ---- failures of one kind ----

  predicate OnlyCode(fs: seq<Failure>, code: FailCode) {
    forall f :: f in fs ==> f.code == code
  }

  /** How many failures of one kind, other than stalls, are retried. */
  function Allowance(code: FailCode): nat {
    match code
    case GeoBlocked => 0
    case Expired => 0
    case NotYetAvailable => 11
    case MetadataUnavailable => 11
    case _ => 2
  }

  lemma {:induction false} OneCounter(dl: Download, fs: seq<Failure>, code: FailCode)
    requires Fresh(dl) && OnlyCode(fs, code) && code != Stalled
    ensures var d := AfterFailures(dl, fs);
            d.retryCount == (if code == MetadataUnavailable then 0 else |fs|)
            && d.metadataFailures == (if code == MetadataUnavailable then |fs| else 0)
  {
    hide RetryDelay;
    if fs != [] {
      OneCounter(dl, fs[..|fs| - 1], code);
    }
  }

  /**
   Failures of one kind: a missing programme is looked for every five minutes
   and given up at the twelfth time, a refused one at once, and any other
   failure is retried after 30 seconds, after 90, and then not again.
   */
  lemma RetrySchedule(dl: Download, fs: seq<Failure>, code: FailCode)
    requires Fresh(dl) && OnlyCode(fs, code) && code != Stalled && fs != []
    ensures var d, last := AfterFailures(dl, fs), fs[|fs| - 1];
            && (d.retryable <==> |fs| <= Allowance(code))
            && (d.retryable ==> d.retryAfter - last.now == Wait(code, |fs|))
  {
    hide AfterFailure, AfterFailures, Allowance, Wait;
    var before, last := fs[..|fs| - 1], fs[|fs| - 1];
    OneCounter(dl, before, code);
    assert last in fs;
    AfterFailuresOf(dl, fs);
    NextOfCode(AfterFailures(dl, before), last, |before|);
  }

  /** How long the n-th failure of one kind is waited out. */
  function Wait(code: FailCode, n: nat): int {
    if code in {NotYetAvailable, MetadataUnavailable} then 300 * SECOND else if n == 1 then 30 * SECOND else 90 * SECOND
  }

  lemma AfterFailuresOf(dl: Download, fs: seq<Failure>)
    requires fs != []
    ensures AfterFailures(dl, fs) == AfterFailure(AfterFailures(dl, fs[..|fs| - 1]), fs[|fs| - 1])
  {
  }

  lemma NextOfCode(d: Download, f: Failure, n: nat)
    requires f.code != Stalled
    requires f.code == MetadataUnavailable ==> d.metadataFailures == n
    requires f.code != MetadataUnavailable ==> d.retryCount == n
    ensures var e := AfterFailure(d, f);
            && (e.retryable <==> n + 1 <= Allowance(f.code))
            && (e.retryable ==> e.retryAfter - f.now == Wait(f.code, n + 1))
  {
    hide AddFailedSupplier;
    assert Pow3(0) == 1 && Pow3(1) == 3;
  }

  /** The n-th failure of a run that uses every budget up: not yet available, stalls, frozen stalls, metadata failures. */
  function LongestRunFailure(n: nat): Failure {
    Failure(if n <= 11 then NotYetAvailable else if n <= 19 then Stalled else MetadataUnavailable, None, 14 <= n <= 19, 0)
  }

  function LongestRun(n: nat): seq<Failure> {
    if n == 0 then [] else LongestRun(n - 1) + [LongestRunFailure(n)]
  }

  predicate LongestRunCounts(d: Download, n: nat) {
    && d.retryCount == (if n <= 11 then n else 11)
    && d.stallCount == (if n <= 11 then 0 else if n <= 13 then n - 11 else 2)
    && d.stallCredits == (if n <= 13 then 0 else if n <= 19 then n - 13 else 6)
    && d.metadataFailures == (if n <= 19 then 0 else n - 19)
  }

  lemma LongestRunStep(d: Download, n: nat)
    requires 1 <= n <= 30 && LongestRunCounts(d, n - 1)
    ensures var e := AfterFailure(d, LongestRunFailure(n)); LongestRunCounts(e, n) && e.retryable
  {
    hide RetryDelay;
  }

  lemma {:induction false} LongestRunRetried(dl: Download, n: nat)
    requires Fresh(dl) && n <= 30
    ensures |LongestRun(n)| == n && AllRetried(dl, LongestRun(n))
    ensures LongestRunCounts(AfterFailures(dl, LongestRun(n)), n)
  {
    hide AfterFailure, LongestRunFailure;
    if n > 0 {
      LongestRunRetried(dl, n - 1);
      assert LongestRun(n)[..n - 1] == LongestRun(n - 1);
      LongestRunStep(AfterFailures(dl, LongestRun(n - 1)), n);
    }
  }

  /** The bound is exact: some run of 30 failures is retried throughout. */
  lemma ThirtyIsReached(dl: Download)
    requires Fresh(dl)
    ensures exists fs :: |fs| == 30 && AllRetried(dl, fs)
  {
    LongestRunRetried(dl, 30);
  }

  predicate OnlyStalls(fs: seq<Failure>) {
    forall f :: f in fs ==> f.code == Stalled
  }

  /** How many of the stalls came during a cooldown. */
  function Frozen(fs: seq<Failure>): nat {
    if fs == [] then 0 else Frozen(fs[..|fs| - 1]) + if fs[|fs| - 1].cooling then 1 else 0
  }

  lemma {:induction false} StallCounts(dl: Download, fs: seq<Failure>)
    requires Fresh(dl) && OnlyStalls(fs)
    ensures var d, credits := AfterFailures(dl, fs), if Frozen(fs) < 6 then Frozen(fs) else 6;
            d.stallCredits == credits && d.stallCount == |fs| - credits && Frozen(fs) <= |fs|
  {
    if fs != [] {
      StallCounts(dl, fs[..|fs| - 1]);
    }
  }

  /** Stalls alone: a run of them is still retried exactly while fewer than three count against the budget, six at most being frozen. */
  lemma StallsAlone(dl: Download, fs: seq<Failure>)
    requires Fresh(dl) && OnlyStalls(fs) && fs != []
    ensures AfterFailures(dl, fs).retryable <==> |fs| < 3 + if Frozen(fs) < 6 then Frozen(fs) else 6
    ensures |fs| < 3 ==> AfterFailures(dl, fs).retryable
    ensures |fs| >= 9 ==> !AfterFailures(dl, fs).retryable
  {
    StallCounts(dl, fs);
    assert fs[|fs| - 1] in fs;
  }

  /** How long a stall is waited out: by how many stalls count, whatever else has failed. */
  lemma StallSchedule(dl: Download, fs: seq<Failure>)
    requires Fresh(dl) && OnlyStalls(fs) && fs != [] && AfterFailures(dl, fs).retryable
    ensures var credits := if Frozen(fs) < 6 then Frozen(fs) else 6;
            AfterFailures(dl, fs).retryAfter - fs[|fs| - 1].now == if |fs| - credits <= 1 then 30 * SECOND else 90 * SECOND
  {
    hide AfterFailure, AfterFailures, Frozen;
    var before, last := fs[..|fs| - 1], fs[|fs| - 1];
    StallCounts(dl, fs);
    assert last in fs;
    AfterFailuresOf(dl, fs);
    StallWait(AfterFailures(dl, before), last);
  }

  lemma StallWait(d: Download, f: Failure)
    requires f.code == Stalled && AfterFailure(d, f).retryable
    ensures var e := AfterFailure(d, f);
            e.stallCount <= 2 && e.retryAfter - f.now == if e.stallCount <= 1 then 30 * SECOND else 90 * SECOND
  {
    assert Pow3(0) == 1 && Pow3(1) == 3;
  }

  // ---- failures that cost quality ----

  /** A failure of the download itself that no supplier's refusal explains. */
  predicate IsCDNFailure(f: Failure) {
    f.code in {FFmpeg, Truncated} && f.refusedBy.None?
  }

  function CDNFailuresIn(fs: seq<Failure>): nat {
    if fs == [] then 0 else CDNFailuresIn(fs[..|fs| - 1]) + if IsCDNFailure(fs[|fs| - 1]) then 1 else 0
  }

  /** After any run of failures, a row counts exactly those, keeps the code of the last, and still asks for the quality it was grabbed in. */
  lemma {:induction false} CDNFailuresCounted(dl: Download, fs: seq<Failure>)
    ensures var d := AfterFailures(dl, fs);
            && d.cdnFailures == dl.cdnFailures + CDNFailuresIn(fs) && d.quality == dl.quality
            && (fs != [] ==> d.failureCode == fs[|fs| - 1].code)
  {
    hide AfterFailure;
    if fs != [] {
      CDNFailuresCounted(dl, fs[..|fs| - 1]);
      CDNFailureAdded(AfterFailures(dl, fs[..|fs| - 1]), fs[|fs| - 1]);
    }
  }

  lemma CDNFailureAdded(d: Download, f: Failure)
    ensures var e := AfterFailure(d, f);
            && e.cdnFailures == d.cdnFailures + (if IsCDNFailure(f) then 1 else 0)
            && e.quality == d.quality && e.failureCode == f.code
  {
    hide RetryDelay, AddFailedSupplier;
  }

  /** The supplier refused the stream, and nothing else explains the failure. */
  predicate RefusedBy(f: Failure, supplier: string) {
    f.refusedBy == Some(supplier) && f.code !in {Stalled, GeoBlocked, Expired, NotYetAvailable, MetadataUnavailable}
  }

  /** After any run of failures, a row names exactly the suppliers that refused it. */
  lemma {:induction false} RefusalsRecorded(dl: Download, fs: seq<Failure>)
    requires dl.failedSuppliers == []
    ensures forall s :: s in AfterFailures(dl, fs).failedSuppliers <==>
              s != "" && exists f :: f in fs && RefusedBy(f, s)
  {
    hide RetryDelay;
    if fs != [] {
      var init, last := fs[..|fs| - 1], fs[|fs| - 1];
      assert forall f :: f in fs <==> f in init || f == last;
      RefusalsRecorded(dl, init);
      RefusalsAfter(AfterFailures(dl, init), last);
      hide AfterFailure;
    }
  }

  lemma RefusalsAfter(d: Download, f: Failure)
    ensures forall s :: s in AfterFailure(d, f).failedSuppliers <==>
              s in d.failedSuppliers
              || (s != "" && RefusedBy(f, s))
  {
    hide RetryDelay;
  }
}
