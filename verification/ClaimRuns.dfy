/**
 Two things the claim protocol of internal/download/worker.go does not keep by
 itself, exactly when it keeps them, and a run in which it does not: admission
 as a bound on the claims, and a finished download staying finished.
 */
module ClaimRuns {
  import opened Downloads
  import opened Queue
  import opened Store
  import opened Claims

  lemma StepIs(states: seq<System>, steps: seq<Step>, i: nat)
    requires Run(states, steps) && i < |steps|
    ensures Enabled(states[i], steps[i]) && states[i + 1] == After(states[i], steps[i])
    ensures |states[i + 1].workers| == |states[i].workers|
  {
    hide Claimable, IsQueue;
  }

  // ---- admission as a bound ----

  /** No worker was admitted under a higher limit. */
  predicate AdmittedWithin(steps: seq<Step>, limit: nat) {
    forall i :: 0 <= i < |steps| && steps[i].Admit? ==> steps[i].limit <= limit
  }

  lemma RemovalShrinks(claimed: map<string, nat>, id: string)
    ensures |claimed - {id}| <= |claimed|
  {
    if id in claimed {
      assert claimed == (claimed - {id})[id := claimed[id]];
    } else {
      assert claimed - {id} == claimed;
    }
  }

  /** A step exceeds a limit exactly by claiming with the limit reached. */
  lemma OnlyClaimsExceed(s: System, t: Step, limit: nat)
    requires Enabled(s, t) && |s.claimed| <= limit
    ensures |After(s, t).claimed| > limit <==> t.Claim? && |s.claimed| == limit
  {
    hide IsQueue, Claimable;
    if t.Release? {
      RemovalShrinks(s.claimed, s.workers[t.w].row.id);
    }
  }

  ghost predicate ClaimsWithin(states: seq<System>, n: nat, limit: nat) {
    n < |states| && forall i :: 0 <= i <= n ==> |states[i].claimed| <= limit
  }

  /** The admission test holds again wherever a claim is made. */
  ghost predicate ClaimsWithRoom(states: seq<System>, steps: seq<Step>, n: nat, limit: nat) {
    n <= |steps| < |states| && forall i :: 0 <= i < n && steps[i].Claim? ==> |states[i].claimed| < limit
  }

  /** The claims stay within a limit if and only if every claim is made with room left under it. */
  lemma {:induction false} BoundedIffAdmittedAtClaim(states: seq<System>, steps: seq<Step>, n: nat, limit: nat)
    requires Run(states, steps) && n <= |steps|
    ensures ClaimsWithin(states, n, limit) <==> ClaimsWithRoom(states, steps, n, limit)
  {
    hide After, Enabled;
    if n > 0 {
      BoundedIffAdmittedAtClaim(states, steps, n - 1, limit);
      StepIs(states, steps, n - 1);
      if |states[n - 1].claimed| <= limit {
        OnlyClaimsExceed(states[n - 1], steps[n - 1], limit);
        assert ClaimsWithin(states, n, limit) <==> ClaimsWithin(states, n - 1, limit) && |states[n].claimed| <= limit;
      } else {
        assert !ClaimsWithin(states, n - 1, limit);
      }
    }
  }

  /** Between its admission and its claim. */
  predicate Undecided(p: Phase) {
    p.Admitted? || p.Scanning?
  }

  predicate OneUndecided(s: System) {
    forall v, w :: 0 <= v < w < |s.workers| ==> !(Undecided(s.workers[v]) && Undecided(s.workers[w]))
  }

  /** While one worker at a time is between admission and claim, admission is a bound. */
  lemma {:induction false} BoundedWhenOneDecides(states: seq<System>, steps: seq<Step>, n: nat, limit: nat)
    requires Run(states, steps) && n <= |steps| && AdmittedWithin(steps, limit)
    requires forall i :: 0 <= i <= n ==> OneUndecided(states[i])
    ensures |states[n].claimed| <= limit
    ensures forall w :: 0 <= w < |states[n].workers| && Undecided(states[n].workers[w]) ==> |states[n].claimed| < limit
  {
    hide After, Enabled;
    if n > 0 {
      BoundedWhenOneDecides(states, steps, n - 1, limit);
      StepIs(states, steps, n - 1);
      DecidingKeepsBound(states[n - 1], steps[n - 1], limit);
    }
  }

  lemma DecidingKeepsBound(s: System, t: Step, limit: nat)
    requires Enabled(s, t) && OneUndecided(s) && |s.claimed| <= limit && |After(s, t).workers| == |s.workers|
    requires t.Admit? ==> t.limit <= limit
    requires forall w :: 0 <= w < |s.workers| && Undecided(s.workers[w]) ==> |s.claimed| < limit
    ensures |After(s, t).claimed| <= limit
    ensures forall w :: 0 <= w < |s.workers| && Undecided(After(s, t).workers[w]) ==> |After(s, t).claimed| < limit
  {
    OnlyClaimsExceed(s, t, limit);
    UndecidedStep(s, t);
    ClaimedStep(s, t);
    hide After, Enabled;
  }

  /** Only admission makes a worker undecided, and a claim leaves nobody so when one was. */
  lemma UndecidedStep(s: System, t: Step)
    requires Enabled(s, t) && OneUndecided(s) && |After(s, t).workers| == |s.workers|
    ensures forall w :: 0 <= w < |s.workers| && Undecided(After(s, t).workers[w]) ==>
              !t.Claim? && (Undecided(s.workers[w]) || t.Admit?)
    ensures t.Claim? ==> t.w < |s.workers| && Undecided(s.workers[t.w])
  {
    hide IsQueue, Claimable;
  }

  lemma ClaimedStep(s: System, t: Step)
    requires Enabled(s, t)
    ensures !t.Claim? ==> |After(s, t).claimed| <= |s.claimed|
    ensures t.Admit? ==> |After(s, t).claimed| < t.limit
  {
    hide IsQueue, Claimable;
    if t.Release? {
      RemovalShrinks(s.claimed, s.workers[t.w].row.id);
    }
  }

  // ---- a finished download staying finished ----

  /** No id is both in the queue and in history. */
  ghost predicate Apart(s: System) {
    s.downloads.Keys !! s.history.Keys
  }

  /** A worker writes a row that history already holds. */
  ghost predicate Revives(s: System, t: Step) {
    t.Put? && t.row.id in s.history
  }

  /** The rest of the system leaves an id in both buckets that were apart, as a delete does whose row is written again before its copy reaches history. */
  ghost predicate Joins(s: System, t: Step) {
    t.Others? && Apart(s) && !(t.downloads.Keys !! t.history.Keys)
  }

  lemma StepKeepsApart(s: System, t: Step)
    requires Enabled(s, t) && Apart(s)
    ensures Apart(After(s, t)) <==> !Revives(s, t) && !Joins(s, t)
  {
    hide IsQueue, Claimable;
  }

  ghost predicate ApartTo(states: seq<System>, n: nat) {
    n < |states| && forall i :: 0 <= i <= n ==> Apart(states[i])
  }

  ghost predicate NothingRevived(states: seq<System>, steps: seq<Step>, n: nat) {
    n <= |steps| < |states| && forall i :: 0 <= i < n ==> !Revives(states[i], steps[i])
  }

  ghost predicate NothingJoined(states: seq<System>, steps: seq<Step>, n: nat) {
    n <= |steps| < |states| && forall i :: 0 <= i < n ==> !Joins(states[i], steps[i])
  }

  /**
   From buckets that are apart, queue and history stay so if and only if no
   worker writes a row that history already holds and the rest of the system
   puts no id in both.
   */
  lemma {:induction false} ApartIffNothingRevivedOrJoined(states: seq<System>, steps: seq<Step>, n: nat)
    requires Run(states, steps) && Apart(states[0]) && n <= |steps|
    ensures ApartTo(states, n) <==> NothingRevived(states, steps, n) && NothingJoined(states, steps, n)
  {
    hide After, Enabled, Apart, Revives, Joins;
    if n > 0 {
      ApartIffNothingRevivedOrJoined(states, steps, n - 1);
      StepIs(states, steps, n - 1);
      assert ApartTo(states, n) <==> ApartTo(states, n - 1) && Apart(states[n]);
      assert NothingRevived(states, steps, n) <==>
        NothingRevived(states, steps, n - 1) && !Revives(states[n - 1], steps[n - 1]);
      assert NothingJoined(states, steps, n) <==>
        NothingJoined(states, steps, n - 1) && !Joins(states[n - 1], steps[n - 1]);
      if Apart(states[n - 1]) {
        StepKeepsApart(states[n - 1], steps[n - 1]);
      }
    }
  }

  /** While the buckets are apart, nothing a worker does touches a row of history, so what is finished stays as it ended. */
  lemma {:induction false} FinishedStaysFinished(states: seq<System>, steps: seq<Step>, i: nat, n: nat, id: string)
    requires Run(states, steps) && i <= n <= |steps|
    requires ApartTo(states, n)
    requires forall j :: i <= j < n && steps[j].Others? ==>
               (id in steps[j].history <==> id in states[j].history)
               && (id in states[j].history ==> steps[j].history[id] == states[j].history[id])
    requires id in states[i].history
    ensures id in states[n].history && states[n].history[id] == states[i].history[id] && id !in states[n].downloads
    decreases n
  {
    hide IsQueue, Claimable;
    assert Apart(states[n]);
    if i < n {
      FinishedStaysFinished(states, steps, i, n - 1, id);
      hide Agree;
      assert states[n] == After(states[n - 1], steps[n - 1]);
    }
  }

  // ---- where a revived row comes from ----

  /** Worker w holds the id. */
  predicate HoldsId(s: System, w: nat, id: string) {
    w < |s.workers| && s.workers[w].Working? && s.workers[w].row.id == id
  }

  predicate Scans(s: System, w: nat, rows: seq<Download>) {
    w < |s.workers| && s.workers[w].Scanning? && s.workers[w].rows == rows
  }

  ghost predicate ClaimsId(s: System, t: Step, w: nat, id: string) {
    t.Claim? && t.w == w && Enabled(s, t) && s.workers[w].rows[s.workers[w].next].id == id
  }

  /** A worker holding an id has claimed it, and held it since; what it archived it had not archived before. */
  lemma {:induction false} HeldSinceClaim(states: seq<System>, steps: seq<Step>, k: nat, w: nat, id: string) returns (c: nat)
    requires Run(states, steps) && k <= |steps| && HoldsId(states[k], w, id)
    ensures c < k && ClaimsId(states[c], steps[c], w, id)
    ensures forall i :: c < i <= k ==>
              HoldsId(states[i], w, id) && (states[i].workers[w].archived ==> states[k].workers[w].archived)
    decreases k
  {
    hide After, Enabled;
    InitiallyIdle(states, steps, w);
    HoldingStep(states[k - 1], steps[k - 1], w, id);
    if ClaimsId(states[k - 1], steps[k - 1], w, id) {
      c := k - 1;
    } else {
      c := HeldSinceClaim(states, steps, k - 1, w, id);
    }
  }

  lemma InitiallyIdle(states: seq<System>, steps: seq<Step>, w: nat)
    requires Run(states, steps)
    ensures w < |states[0].workers| ==> states[0].workers[w].Idle?
  {
  }

  lemma HoldingStep(s: System, t: Step, w: nat, id: string)
    requires Enabled(s, t) && HoldsId(After(s, t), w, id)
    ensures ClaimsId(s, t, w, id)
            || (HoldsId(s, w, id) && (s.workers[w].archived ==> After(s, t).workers[w].archived))
  {
    hide IsQueue, Claimable;
  }

  /** A worker scanning a listing has listed the queue, and scanned that listing since. */
  lemma {:induction false} ScannedSinceList(states: seq<System>, steps: seq<Step>, k: nat, w: nat, rows: seq<Download>)
    returns (l: nat)
    requires Run(states, steps) && k <= |steps| && Scans(states[k], w, rows)
    ensures l < k && steps[l].List? && steps[l].w == w && steps[l].rows == rows
    ensures forall i :: l < i <= k ==> Scans(states[i], w, rows)
    decreases k
  {
    hide After, Enabled;
    InitiallyIdle(states, steps, w);
    ScanningStep(states[k - 1], steps[k - 1], w, rows);
    if steps[k - 1].List? && steps[k - 1].w == w {
      l := k - 1;
    } else {
      l := ScannedSinceList(states, steps, k - 1, w, rows);
    }
  }

  lemma ScanningStep(s: System, t: Step, w: nat, rows: seq<Download>)
    requires Enabled(s, t) && Scans(After(s, t), w, rows)
    ensures if t.List? && t.w == w then t.rows == rows else Scans(s, w, rows)
  {
    hide IsQueue, Claimable;
  }

  /** The step at m put the id in history, for good up to k. */
  ghost predicate Finishes(states: seq<System>, steps: seq<Step>, m: nat, k: nat, id: string)
    requires m < k < |states|
  {
    id !in states[m].history && forall i :: m < i <= k ==> id in states[i].history
  }

  lemma {:induction false} FinishedBetween(states: seq<System>, steps: seq<Step>, l: nat, k: nat, id: string) returns (m: nat)
    requires l < k < |states| && id !in states[l].history && id in states[k].history
    ensures l <= m < k && Finishes(states, steps, m, k, id)
    decreases k
  {
    if id !in states[k - 1].history {
      m := k - 1;
    } else {
      m := FinishedBetween(states, steps, l, k - 1, id);
    }
  }

  /** Every row of the queue is stored under its own id. */
  ghost predicate OthersKeepKeys(states: seq<System>, steps: seq<Step>)
    requires |states| == |steps| + 1
  {
    WellKeyed(states[0].downloads) && forall i :: 0 <= i < |steps| && steps[i].Others? ==> WellKeyed(steps[i].downloads)
  }

  /** What a listing shows is queued, under its own id. */
  lemma {:induction false} BucketsStayKeyed(states: seq<System>, steps: seq<Step>, n: nat)
    requires Run(states, steps) && OthersKeepKeys(states, steps) && n <= |steps|
    ensures WellKeyed(states[n].downloads)
  {
    hide IsQueue, Claimable, Apart;
    if n > 0 {
      BucketsStayKeyed(states, steps, n - 1);
      assert states[n] == After(states[n - 1], steps[n - 1]);
    }
  }

  lemma ListedIsQueued(s: System, t: Step, row: Download)
    requires Enabled(s, t) && t.List? && row in t.rows && WellKeyed(s.downloads)
    ensures row.id in s.downloads
  {
    assert row in Rows(t.rows);
  }

  /** Only a worker's archiving, or the rest of the system, adds to history. */
  lemma FinishingStep(s: System, t: Step, id: string)
    requires Enabled(s, t) && id !in s.history && id in After(s, t).history
    ensures t.Others? || (t.Archive? && HoldsId(s, t.w, id) && !s.workers[t.w].archived && After(s, t).workers[t.w].archived)
  {
    hide IsQueue, Claimable;
  }

  /**
   A revival in buckets that were apart is a stale listing: the worker listed the row while it was
   queued, and between that and the write the row was finished, by another
   worker before this one's claim, or by the rest of the system.
   */
  lemma RevivalIsStale(states: seq<System>, steps: seq<Step>, k: nat) returns (l: nat, m: nat, c: nat)
    requires Run(states, steps) && OthersKeepKeys(states, steps) && k < |steps|
    requires Revives(states[k], steps[k]) && ApartTo(states, k)
    ensures var w, id := steps[k].w, steps[k].row.id;
            && l < c < k && l < m < k
            && steps[l].List? && steps[l].w == w && id in states[l].downloads && (exists r :: r in steps[l].rows && r.id == id)
            && ClaimsId(states[c], steps[c], w, id) && (forall i :: c < i <= k ==> HoldsId(states[i], w, id))
            && Finishes(states, steps, m, k, id)
            && (steps[m].Others? || (m < c && steps[m].Archive? && steps[m].w != w && HoldsId(states[m], steps[m].w, id)))
  {
    hide After, Apart, IsQueue, Claimable, Agree;
    var w, id := steps[k].w, steps[k].row.id;
    PutIsHeld(states[k], steps[k]);
    c := HeldSinceClaim(states, steps, k, w, id);
    var row := ClaimedRow(states[c], steps[c], w, id);
    l := ScannedSinceList(states, steps, c, w, states[c].workers[w].rows);
    BucketsStayKeyed(states, steps, l);
    ListedIsQueued(states[l], steps[l], row);
    assert id !in states[l].history by { ApartIds(states[l], id); }
    m := FinishedBetween(states, steps, l, k, id);
    StepIs(states, steps, m);
    FinishingStep(states[m], steps[m], id);
    if !steps[m].Others? {
      ArchivedByAnother(states, steps, l, m, c, k, w, id, states[c].workers[w].rows);
    }
  }

  lemma PutIsHeld(s: System, t: Step)
    requires Enabled(s, t) && t.Put?
    ensures HoldsId(s, t.w, t.row.id) && !s.workers[t.w].archived
  {
  }

  lemma ApartIds(s: System, id: string)
    requires Apart(s) && id in s.downloads
    ensures id !in s.history
  {
  }

  lemma ClaimedRow(s: System, t: Step, w: nat, id: string) returns (row: Download)
    requires ClaimsId(s, t, w, id)
    ensures Scans(s, w, s.workers[w].rows) && row in s.workers[w].rows && row.id == id
  {
    row := s.workers[w].rows[s.workers[w].next];
  }

  /** The worker that writes after the claim cannot be the one that archived, and nobody else can archive what it holds. */
  lemma ArchivedByAnother(states: seq<System>, steps: seq<Step>, l: nat, m: nat, c: nat, k: nat, w: nat, id: string,
                          rows: seq<Download>)
    requires Run(states, steps) && l <= m < k < |steps| && l < c < k
    requires steps[l].List? && forall i :: l < i <= c ==> Scans(states[i], w, rows)
    requires HoldsId(states[k], w, id) && !states[k].workers[w].archived
    requires forall i :: c < i <= k ==>
               HoldsId(states[i], w, id) && (states[i].workers[w].archived ==> states[k].workers[w].archived)
    requires steps[m].Archive? && HoldsId(states[m], steps[m].w, id) && states[m + 1].workers[steps[m].w].archived
    requires steps[c].Claim?
    ensures l < m < c && steps[m].w != w
  {
    hide After, Enabled;
    if m > c && steps[m].w != w {
      ClaimsAreExclusive(states, steps, m, w, steps[m].w);
    }
  }

  // ---- the guard that would keep it ----

  /** The rest of the system moves no row to history that a worker holds. */
  ghost predicate OthersSpareClaims(states: seq<System>, steps: seq<Step>)
    requires |states| == |steps| + 1
  {
    forall i, id :: 0 <= i < |steps| && steps[i].Others? && id in steps[i].history && id !in states[i].history ==>
      id !in states[i].claimed
  }

  /** Then a revival always starts from a claim of a row that is in history by the time it is claimed. */
  lemma RevivalWasClaimedFinished(states: seq<System>, steps: seq<Step>, k: nat) returns (c: nat)
    requires Run(states, steps) && OthersKeepKeys(states, steps) && OthersSpareClaims(states, steps) && k < |steps|
    requires Revives(states[k], steps[k]) && ApartTo(states, k)
    ensures c < k && ClaimsId(states[c], steps[c], steps[k].w, steps[k].row.id) && steps[k].row.id in states[c].history
  {
    hide After, Apart, IsQueue, Claimable, Enabled, Agree;
    var w, id := steps[k].w, steps[k].row.id;
    var l, m;
    l, m, c := RevivalIsStale(states, steps, k);
    if m >= c {
      assert steps[c].Claim?;
      HeldIsClaimed(states, steps, m, w, id);
      StepIs(states, steps, m);
      OthersAdd(states[m], steps[m]);
    }
  }

  lemma HeldIsClaimed(states: seq<System>, steps: seq<Step>, m: nat, w: nat, id: string)
    requires Run(states, steps) && m <= |steps| && HoldsId(states[m], w, id)
    ensures id in states[m].claimed
  {
    hide After, Enabled;
    EveryStateConsistent(states, steps, m);
  }

  lemma OthersAdd(s: System, t: Step)
    requires Enabled(s, t) && t.Others?
    ensures After(s, t).history == t.history
  {
  }

  lemma {:induction false} FirstRevival(states: seq<System>, steps: seq<Step>, k: nat) returns (f: nat)
    requires |states| == |steps| + 1 && k < |steps| && Revives(states[k], steps[k])
    ensures f <= k && Revives(states[f], steps[f]) && NothingRevived(states, steps, f)
  {
    hide Revives;
    if i :| 0 <= i < k && Revives(states[i], steps[i]) {
      f := FirstRevival(states, steps, i);
    } else {
      f := k;
    }
  }

  /**
   A second look at history under the claim would be enough for the workers: if
   no claim takes a finished row, only the rest of the system can put an id in
   both buckets.
   */
  lemma RecheckedClaimsKeepApart(states: seq<System>, steps: seq<Step>, n: nat)
    requires Run(states, steps) && OthersKeepKeys(states, steps) && OthersSpareClaims(states, steps) && n <= |steps|
    requires Apart(states[0])
    requires forall c: nat, w: nat, id: string :: c < n && ClaimsId(states[c], steps[c], w, id) ==> id !in states[c].history
    ensures ApartTo(states, n) <==> NothingJoined(states, steps, n)
  {
    hide After, Enabled, OthersKeepKeys, OthersSpareClaims, ClaimsId, Apart, Joins;
    ApartIffNothingRevivedOrJoined(states, steps, n);
    if NothingJoined(states, steps, n) {
      if k :| 0 <= k < n && Revives(states[k], steps[k]) {
        var f := FirstRevival(states, steps, k);
        ApartIffNothingRevivedOrJoined(states, steps, f);
        var c := RevivalWasClaimedFinished(states, steps, f);
        assert false;
      }
      assert NothingRevived(states, steps, n);
    }
  }

  // ---- runs that keep neither ----

  function Row(id: string, status: Status): Download {
    Download(id, "pid-" + id, "720p", "", 0, 0, "", status, NoFailure, false, 0, 0, 0, 0, 0, 0, "", [], 0, 1, 0)
  }

  lemma TwoRows(a: Download, b: Download) returns (q: seq<Download>)
    requires a.id != b.id
    ensures IsQueue(q, {a, b}) && (q == [a, b] || q == [b, a])
  {
    BeforeIsTotal(a, b);
    q := if Before(a, b) then [a, b] else [b, a];
  }

  function RaceSteps(q: seq<Download>): seq<Step> {
    [Admit(0, 1), Admit(1, 1), List(0, q), List(1, q), Claim(0, 0), Pass(1), Claim(1, 0)]
  }

  function RaceStates(q: seq<Download>, bucket: Bucket): seq<System>
    requires |q| == 2
  {
    var x, y := q[0].id, q[1].id;
    [ System(map[], [Idle, Idle], bucket, map[]),
      System(map[], [Admitted, Idle], bucket, map[]),
      System(map[], [Admitted, Admitted], bucket, map[]),
      System(map[], [Scanning(q, 0), Admitted], bucket, map[]),
      System(map[], [Scanning(q, 0), Scanning(q, 0)], bucket, map[]),
      System(map[x := 0], [Working(q[0], false), Scanning(q, 0)], bucket, map[]),
      System(map[x := 0], [Working(q[0], false), Scanning(q, 1)], bucket, map[]),
      System(map[x := 0][y := 1], [Working(q[0], false), Working(q[1], false)], bucket, map[]) ]
  }

  lemma RaceRuns(q: seq<Download>, bucket: Bucket)
    requires |q| == 2 && q[0].id != q[1].id && q[0].status == Pending && q[1].status == Pending
    requires IsQueue(q, bucket.Values)
    ensures Run(RaceStates(q, bucket), RaceSteps(q))
  {
    hide IsQueue;
    var states, steps := RaceStates(q, bucket), RaceSteps(q);
    forall i | 0 <= i < |steps|
      ensures Enabled(states[i], steps[i]) && states[i + 1] == After(states[i], steps[i])
    {
      RaceStep(q, bucket, i);
    }
  }

  lemma RaceStep(q: seq<Download>, bucket: Bucket, i: nat)
    requires |q| == 2 && q[0].id != q[1].id && q[0].status == Pending && q[1].status == Pending
    requires IsQueue(q, bucket.Values) && i < |RaceSteps(q)|
    ensures Enabled(RaceStates(q, bucket)[i], RaceSteps(q)[i])
    ensures RaceStates(q, bucket)[i + 1] == After(RaceStates(q, bucket)[i], RaceSteps(q)[i])
  {
    hide IsQueue;
    var s, t := RaceStates(q, bucket)[i], RaceSteps(q)[i];
    assert |s.claimed| == 0 || i >= 5;
    assert Enabled(s, t);
    assert After(s, t).workers == RaceStates(q, bucket)[i + 1].workers;
  }

  /** Admission is not the claim: with room for one download, two workers can both be admitted and then both claim. */
  lemma AdmissionIsNotABound()
    ensures exists states: seq<System>, steps: seq<Step> ::
              && Run(states, steps)
              && (forall i :: 0 <= i < |steps| ==> steps[i].Admit? ==> steps[i].limit == 1)
              && |states[|steps|].claimed| == 2
  {
    hide Run, IsQueue;
    var a, b := Row("a", Pending), Row("b", Pending);
    var bucket: Bucket := map["a" := a, "b" := b];
    var q := TwoRows(a, b);
    assert bucket["a"] == a && bucket["b"] == b && bucket.Keys == {"a", "b"};
    assert bucket.Values == {a, b};
    RaceRuns(q, bucket);
    var states, steps := RaceStates(q, bucket), RaceSteps(q);
    assert states[|steps|].claimed.Keys == {q[0].id, q[1].id};
  }

  function StaleSteps(a: Download): seq<Step> {
    var q := [a];
    [Admit(0, 2), Admit(1, 2), List(0, q), List(1, q), Claim(0, 0), Put(0, a.(status := Completed)), Archive(0), Release(0),
     Claim(1, 0), Put(1, a.(status := Resolving))]
  }

  function StaleStates(a: Download): seq<System> {
    var q, done, again := [a], a.(status := Completed), a.(status := Resolving);
    var queued: Bucket := map[a.id := a];
    [ System(map[], [Idle, Idle], queued, map[]),
      System(map[], [Admitted, Idle], queued, map[]),
      System(map[], [Admitted, Admitted], queued, map[]),
      System(map[], [Scanning(q, 0), Admitted], queued, map[]),
      System(map[], [Scanning(q, 0), Scanning(q, 0)], queued, map[]),
      System(map[a.id := 0], [Working(a, false), Scanning(q, 0)], queued, map[]),
      System(map[a.id := 0], [Working(done, false), Scanning(q, 0)], map[a.id := done], map[]),
      System(map[a.id := 0], [Working(done, true), Scanning(q, 0)], map[], map[a.id := done]),
      System(map[], [Idle, Scanning(q, 0)], map[], map[a.id := done]),
      System(map[a.id := 1], [Idle, Working(a, false)], map[], map[a.id := done]),
      System(map[a.id := 1], [Idle, Working(again, false)], map[a.id := again], map[a.id := done]) ]
  }

  lemma StaleAdmitted(a: Download, i: nat)
    requires a.status == Pending && IsQueue([a], {a}) && i < 4
    ensures Enabled(StaleStates(a)[i], StaleSteps(a)[i])
    ensures StaleStates(a)[i + 1] == After(StaleStates(a)[i], StaleSteps(a)[i])
  {
    hide IsQueue;
    var queued: Bucket := map[a.id := a];
    assert queued[a.id] == a && queued.Keys == {a.id};
    assert queued.Values == {a};
    var s, t := StaleStates(a)[i], StaleSteps(a)[i];
    assert |s.claimed| == 0;
    assert After(s, t).workers == StaleStates(a)[i + 1].workers;
  }

  lemma StaleFinished(a: Download, i: nat)
    requires a.status == Pending && 4 <= i < 6
    ensures Enabled(StaleStates(a)[i], StaleSteps(a)[i])
    ensures StaleStates(a)[i + 1] == After(StaleStates(a)[i], StaleSteps(a)[i])
  {
    var s, t := StaleStates(a)[i], StaleSteps(a)[i];
    assert After(s, t).workers == StaleStates(a)[i + 1].workers;
    assert After(s, t).downloads == StaleStates(a)[i + 1].downloads;
  }

  lemma StaleArchived(a: Download, i: nat)
    requires a.status == Pending && 6 <= i < 8
    ensures Enabled(StaleStates(a)[i], StaleSteps(a)[i])
    ensures StaleStates(a)[i + 1] == After(StaleStates(a)[i], StaleSteps(a)[i])
  {
    var s, t := StaleStates(a)[i], StaleSteps(a)[i];
    assert After(s, t).workers == StaleStates(a)[i + 1].workers;
    assert After(s, t).claimed == StaleStates(a)[i + 1].claimed;
    assert After(s, t).downloads == StaleStates(a)[i + 1].downloads;
  }

  lemma StaleRevived(a: Download, i: nat)
    requires a.status == Pending && 8 <= i < 10
    ensures Enabled(StaleStates(a)[i], StaleSteps(a)[i])
    ensures StaleStates(a)[i + 1] == After(StaleStates(a)[i], StaleSteps(a)[i])
  {
    var s, t := StaleStates(a)[i], StaleSteps(a)[i];
    assert After(s, t).workers == StaleStates(a)[i + 1].workers;
    assert After(s, t).claimed == StaleStates(a)[i + 1].claimed;
  }

  /**
   The listing is older than the claim: a worker can claim a row another one
   has meanwhile completed and moved to history, and its first write puts the
   row back in the queue beside its history entry.
   */
  lemma StaleListingRevivesRow()
    ensures exists states: seq<System>, steps: seq<Step>, id ::
              && Run(states, steps)
              && id in states[|steps|].downloads && id in states[|steps|].history
              && states[|steps|].history[id].status == Completed
  {
    hide IsQueue, Enabled, After;
    var a := Row("a", Pending);
    assert IsQueue([a], {a}) by { SingleQueue(a); }
    var states, steps := StaleStates(a), StaleSteps(a);
    forall i | 0 <= i < |steps|
      ensures Enabled(states[i], steps[i]) && states[i + 1] == After(states[i], steps[i])
    {
      if i < 4 {
        StaleAdmitted(a, i);
      } else if i < 6 {
        StaleFinished(a, i);
      } else if i < 8 {
        StaleArchived(a, i);
      } else {
        StaleRevived(a, i);
      }
    }
    assert Run(states, steps);
    assert a.id in states[|steps|].downloads;
  }

  lemma SingleQueue(a: Download)
    ensures IsQueue([a], {a})
  {
  }

  function DeleteSteps(a: Download): seq<Step> {
    var again := a.(status := Resolving);
    [Admit(0, 1), List(0, [a]), Claim(0, 0), Others(map[], map[]), Put(0, again),
     Others(map[a.id := again], map[a.id := a.(status := Failed)])]
  }

  function DeleteStates(a: Download): seq<System> {
    var again := a.(status := Resolving);
    var queued: Bucket := map[a.id := a];
    [ System(map[], [Idle], queued, map[]),
      System(map[], [Admitted], queued, map[]),
      System(map[], [Scanning([a], 0)], queued, map[]),
      System(map[a.id := 0], [Working(a, false)], queued, map[]),
      System(map[a.id := 0], [Working(a, false)], map[], map[]),
      System(map[a.id := 0], [Working(again, false)], map[a.id := again], map[]),
      System(map[a.id := 0], [Working(again, false)], map[a.id := again], map[a.id := a.(status := Failed)]) ]
  }

  lemma DeleteStep(a: Download, i: nat)
    requires a.status == Pending && IsQueue([a], {a}) && i < 6
    ensures Enabled(DeleteStates(a)[i], DeleteSteps(a)[i])
    ensures DeleteStates(a)[i + 1] == After(DeleteStates(a)[i], DeleteSteps(a)[i])
  {
    hide IsQueue;
    var queued: Bucket := map[a.id := a];
    assert queued[a.id] == a && queued.Keys == {a.id};
    assert queued.Values == {a};
    var s, t := DeleteStates(a)[i], DeleteSteps(a)[i];
    assert i < 3 ==> |s.claimed| == 0;
    assert After(s, t).workers == DeleteStates(a)[i + 1].workers;
    assert After(s, t).claimed == DeleteStates(a)[i + 1].claimed;
  }

  /**
   Nothing need be stale for it: SABnzbd's delete removes the row and only then
   writes its failed copy to history, and a worker still at work writes the row
   back in between.
   */
  lemma DeleteCanLeaveBoth()
    ensures exists states: seq<System>, steps: seq<Step>, id ::
              && Run(states, steps) && Apart(states[0]) && NothingRevived(states, steps, |steps|)
              && id in states[|steps|].downloads && id in states[|steps|].history
  {
    hide IsQueue, Enabled, After;
    var a := Row("a", Pending);
    assert IsQueue([a], {a}) by { SingleQueue(a); }
    var states, steps := DeleteStates(a), DeleteSteps(a);
    forall i | 0 <= i < |steps|
      ensures Enabled(states[i], steps[i]) && states[i + 1] == After(states[i], steps[i])
    {
      DeleteStep(a, i);
    }
    assert Run(states, steps);
    assert a.id in states[|steps|].downloads;
  }
}
