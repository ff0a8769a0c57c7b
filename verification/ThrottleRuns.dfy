/**
 Whole runs of the adaptive throttle: any number of workers calling it in any
 order, one atomic step after another.
 */
module ThrottleRuns {
  import opened Text
  import opened Throttle
  import opened Downloads

  datatype Call = Stall(id: string) | Clean | Recover | Resume

  datatype Timed = Timed(call: Call, now: int)

  function After(cfg: Config, ceiling: int, s: State, t: Timed): State {
    match t.call
    case Stall(id) => AfterStall(cfg, s, id, t.now)
    case Clean => AfterClean(cfg, s, t.now)
    case Recover => AfterRecover(cfg, ceiling, s, t.now)
    case Resume => AfterResume(cfg, ceiling, t.now)
  }

  function Initial(cfg: Config, ceiling: int, now: int): State {
    State(ceiling, [], 0, 0, now + cfg.cooldownUp)
  }

  /** The state after the first n calls of a run. */
  function At(cfg: Config, ceiling: int, start: int, run: seq<Timed>, n: nat): State
    requires n <= |run|
  {
    if n == 0 then Initial(cfg, ceiling, start) else After(cfg, ceiling, At(cfg, ceiling, start, run, n - 1), run[n - 1])
  }

  /** The clock reading as of the first n calls. */
  function ClockAt(start: int, run: seq<Timed>, n: nat): int
    requires n <= |run|
  {
    if n == 0 then start else run[n - 1].now
  }

  /** A run under a clock that never goes back. */
  predicate Run(start: int, run: seq<Timed>) {
    && start > 0
    && (forall i :: 0 <= i < |run| ==> start <= run[i].now)
    && (forall i, j :: 0 <= i <= j < |run| ==> run[i].now <= run[j].now)
  }

  predicate Configured(cfg: Config, ceiling: int) {
    Usable(cfg) && 1 <= cfg.floor <= ceiling && cfg.threshold >= 1
  }

  predicate NoResume(run: seq<Timed>, i: nat, j: nat)
    requires i <= j <= |run|
  {
    forall k :: i <= k < j ==> !run[k].call.Resume?
  }

  /** Call i raised the limit by one. */
  predicate Rise(cfg: Config, ceiling: int, start: int, run: seq<Timed>, i: nat)
    requires i < |run|
  {
    run[i].call.Recover? && At(cfg, ceiling, start, run, i + 1).activeLimit > At(cfg, ceiling, start, run, i).activeLimit
  }

  /** Call i opened a cooldown. */
  predicate Trip(cfg: Config, ceiling: int, start: int, run: seq<Timed>, i: nat)
    requires i < |run|
  {
    run[i].call.Stall? && Trips(cfg, At(cfg, ceiling, start, run, i), run[i].call.id, run[i].now)
  }

  // ---- every reachable state is sound ----

  lemma StallKeepsSound(cfg: Config, ceiling: int, s: State, clock: int, id: string, now: int)
    requires Configured(cfg, ceiling) && Sound(cfg, ceiling, s, clock) && clock <= now
    ensures Sound(cfg, ceiling, AfterStall(cfg, s, id, now), now)
  {
    hide CooldownLength, Ids, InWindow, TimeSorted;
    CooldownPositive(cfg, s.consecutive);
    StillSorted(s.events, StallEvent(id, now));
    InWindowSorted(s.events + [StallEvent(id, now)], now - cfg.window);
  }

  lemma StepKeepsSound(cfg: Config, ceiling: int, s: State, clock: int, t: Timed)
    requires Configured(cfg, ceiling) && Sound(cfg, ceiling, s, clock) && clock <= t.now
    ensures Sound(cfg, ceiling, After(cfg, ceiling, s, t), t.now)
  {
    hide AfterStall, InWindow;
    if t.call.Stall? {
      StallKeepsSound(cfg, ceiling, s, clock, t.call.id, t.now);
    } else {
      InWindowSorted(s.events, t.now - cfg.window);
    }
  }

  /** The concurrency cap never leaves its bounds, and the stall list stays sorted by time, whatever is called when. */
  lemma {:induction false} EveryStateSound(cfg: Config, ceiling: int, start: int, run: seq<Timed>, n: nat)
    requires Configured(cfg, ceiling) && Run(start, run) && n <= |run|
    ensures Sound(cfg, ceiling, At(cfg, ceiling, start, run, n), ClockAt(start, run, n))
  {
    if n > 0 {
      EveryStateSound(cfg, ceiling, start, run, n - 1);
      StepKeepsSound(cfg, ceiling, At(cfg, ceiling, start, run, n - 1), ClockAt(start, run, n - 1), run[n - 1]);
    }
  }

  // ---- the limit moves only by trips, recoveries and resumes ----

  /** The limit falls only when a cooldown opens, and then to its half or the floor; it rises by one, or to the ceiling by a manual resume. */
  lemma LimitMoves(cfg: Config, ceiling: int, start: int, run: seq<Timed>, i: nat)
    requires Configured(cfg, ceiling) && Run(start, run) && i < |run|
    ensures var was, now := At(cfg, ceiling, start, run, i).activeLimit, At(cfg, ceiling, start, run, i + 1).activeLimit;
            && (now < was ==> Trip(cfg, ceiling, start, run, i))
            && (Trip(cfg, ceiling, start, run, i) ==> now == Max(was / 2, cfg.floor) <= was)
            && (now > was ==> run[i].call.Resume? || (Rise(cfg, ceiling, start, run, i) && now == was + 1))
  {
    EveryStateSound(cfg, ceiling, start, run, i);
  }

  // ---- recoveries are spaced ----

  /** Once the gate stands at a time or later, it does so for good, as long as the clock is past that time less the gap. */
  lemma {:induction false} GateHolds(cfg: Config, ceiling: int, start: int, run: seq<Timed>, i: nat, j: nat, t: int)
    requires Configured(cfg, ceiling) && Run(start, run) && i <= j <= |run|
    requires At(cfg, ceiling, start, run, i).nextRecoverAt >= t + cfg.cooldownUp
    requires t <= ClockAt(start, run, i)
    ensures At(cfg, ceiling, start, run, j).nextRecoverAt >= t + cfg.cooldownUp
    decreases j
  {
    if i < j {
      GateHolds(cfg, ceiling, start, run, i, j - 1, t);
      CooldownPositive(cfg, At(cfg, ceiling, start, run, j - 1).consecutive);
      assert run[j - 1].now >= t;
    }
  }

  /** Two recoveries are at least CooldownUp apart, however many workers call and whatever happens in between. */
  lemma RisesAreSpaced(cfg: Config, ceiling: int, start: int, run: seq<Timed>, i: nat, j: nat)
    requires Configured(cfg, ceiling) && Run(start, run) && i < j < |run|
    requires Rise(cfg, ceiling, start, run, i) && Rise(cfg, ceiling, start, run, j)
    ensures run[j].now >= run[i].now + cfg.cooldownUp
  {
    hide InWindow, Ids, CooldownLength, AfterStall;
    GateHolds(cfg, ceiling, start, run, i + 1, j, run[i].now);
  }

  /** The recoveries among the first n calls that happen at time t or later. */
  function RisesSince(cfg: Config, ceiling: int, start: int, run: seq<Timed>, n: nat, t: int): nat
    requires n <= |run|
  {
    if n == 0 then 0
    else RisesSince(cfg, ceiling, start, run, n - 1, t)
         + if run[n - 1].now >= t && Rise(cfg, ceiling, start, run, n - 1) then 1 else 0
  }

  lemma {:induction false} LastRise(cfg: Config, ceiling: int, start: int, run: seq<Timed>, n: nat, t: int) returns (i: nat)
    requires Configured(cfg, ceiling) && Run(start, run) && n <= |run|
    requires RisesSince(cfg, ceiling, start, run, n, t) > 0
    ensures i < n && Rise(cfg, ceiling, start, run, i)
    ensures run[i].now >= t + (RisesSince(cfg, ceiling, start, run, n, t) - 1) * cfg.cooldownUp
  {
    hide Rise, At;
    var before := RisesSince(cfg, ceiling, start, run, n - 1, t);
    if run[n - 1].now >= t && Rise(cfg, ceiling, start, run, n - 1) {
      i := n - 1;
      if before > 0 {
        var h := LastRise(cfg, ceiling, start, run, n - 1, t);
        RisesAreSpaced(cfg, ceiling, start, run, h, i);
        assert (before - 1) * cfg.cooldownUp + cfg.cooldownUp == before * cfg.cooldownUp;
      }
    } else {
      i := LastRise(cfg, ceiling, start, run, n - 1, t);
    }
  }

  /** No interval of length len holds more than len / CooldownUp + 1 recoveries. */
  lemma RecoveryRate(cfg: Config, ceiling: int, start: int, run: seq<Timed>, n: nat, t: int, len: nat)
    requires Configured(cfg, ceiling) && Run(start, run) && n <= |run|
    requires forall i :: 0 <= i < n ==> run[i].now <= t + len
    ensures RisesSince(cfg, ceiling, start, run, n, t) <= len / cfg.cooldownUp + 1
  {
    var count := RisesSince(cfg, ceiling, start, run, n, t);
    if count > 0 {
      var i := LastRise(cfg, ceiling, start, run, n, t);
      QuotientAtLeast(len, cfg.cooldownUp, count - 1);
    }
  }

  lemma QuotientAtLeast(a: nat, b: int, q: nat)
    requires b > 0 && q * b <= a
    ensures q <= a / b
  {
    var d := a / b;
    assert (d + 1) * b > a;
    assert q > d ==> q * b >= (d + 1) * b;
  }

  // ---- cooldowns ----

  /** Past a trip, with no manual resume, the end of the latest cooldown and the gate never come before that trip's own. */
  lemma {:induction false} CooldownHolds(cfg: Config, ceiling: int, start: int, run: seq<Timed>, i: nat, j: nat)
    requires Configured(cfg, ceiling) && Run(start, run) && i < j <= |run|
    requires Trip(cfg, ceiling, start, run, i) && NoResume(run, i, j)
    ensures var until := run[i].now + CooldownLength(cfg, At(cfg, ceiling, start, run, i).consecutive);
            && At(cfg, ceiling, start, run, j).coolingUntil >= until > 0
            && At(cfg, ceiling, start, run, j).nextRecoverAt >= until + cfg.cooldownUp
    decreases j
  {
    hide Ids, InWindow, CooldownLength;
    CooldownPositive(cfg, At(cfg, ceiling, start, run, i).consecutive);
    if i + 1 < j {
      CooldownHolds(cfg, ceiling, start, run, i, j - 1);
      CooldownPositive(cfg, At(cfg, ceiling, start, run, j - 1).consecutive);
    }
  }

  /** Cooldowns never overlap: the next one opens at or after the end of the one before, so the limit halves at most once in each. */
  lemma TripsDoNotOverlap(cfg: Config, ceiling: int, start: int, run: seq<Timed>, i: nat, j: nat)
    requires Configured(cfg, ceiling) && Run(start, run) && i < j < |run|
    requires Trip(cfg, ceiling, start, run, i) && Trip(cfg, ceiling, start, run, j) && NoResume(run, i, j)
    ensures run[j].now >= run[i].now + CooldownLength(cfg, At(cfg, ceiling, start, run, i).consecutive)
  {
    hide CooldownLength, Ids, InWindow;
    CooldownHolds(cfg, ceiling, start, run, i, j);
  }

  /** After a trip the limit does not rise again before the cooldown's end plus CooldownUp, unless resumed by hand. */
  lemma NoRiseBeforeCooldownEnds(cfg: Config, ceiling: int, start: int, run: seq<Timed>, i: nat, j: nat)
    requires Configured(cfg, ceiling) && Run(start, run) && i < j < |run|
    requires Trip(cfg, ceiling, start, run, i) && NoResume(run, i, j + 1)
    requires At(cfg, ceiling, start, run, j + 1).activeLimit > At(cfg, ceiling, start, run, j).activeLimit
    ensures run[j].now >= run[i].now + CooldownLength(cfg, At(cfg, ceiling, start, run, i).consecutive) + cfg.cooldownUp
  {
    hide CooldownLength, Ids, InWindow;
    CooldownHolds(cfg, ceiling, start, run, i, j);
    LimitMoves(cfg, ceiling, start, run, j);
  }

  /** The trips among the first n calls. */
  function TripsBefore(cfg: Config, ceiling: int, start: int, run: seq<Timed>, n: nat): nat
    requires n <= |run|
  {
    if n == 0 then 0
    else TripsBefore(cfg, ceiling, start, run, n - 1) + if Trip(cfg, ceiling, start, run, n - 1) then 1 else 0
  }

  /**
   From m to n nothing resets the count of trips while it stands: no download
   completes outside a cooldown, nobody resumes, and no recovery regains the
   ceiling. With no trip counted there is nothing to reset.
   */
  predicate Unrelieved(cfg: Config, ceiling: int, start: int, run: seq<Timed>, m: nat, n: nat)
    requires m <= n <= |run|
  {
    forall i :: m <= i < n && At(cfg, ceiling, start, run, i).consecutive > 0 ==>
      && !run[i].call.Resume?
      && (run[i].call.Clean? ==> Cooling(At(cfg, ceiling, start, run, i), run[i].now))
      && (run[i].call.Recover? && Recovers(cfg, At(cfg, ceiling, start, run, i), run[i].now) ==>
            At(cfg, ceiling, start, run, i + 1).activeLimit < ceiling)
  }

  lemma {:induction false} ConsecutiveCountsTrips(cfg: Config, ceiling: int, start: int, run: seq<Timed>, m: nat, n: nat)
    requires cfg.enabled && m <= n <= |run| && Unrelieved(cfg, ceiling, start, run, m, n)
    requires At(cfg, ceiling, start, run, m).consecutive == 0
    ensures At(cfg, ceiling, start, run, n).consecutive
            == TripsBefore(cfg, ceiling, start, run, n) - TripsBefore(cfg, ceiling, start, run, m)
    decreases n
  {
    hide InWindow, Ids, CooldownLength, Recovers, At;
    if m < n {
      ConsecutiveCountsTrips(cfg, ceiling, start, run, m, n - 1);
      AtNext(cfg, ceiling, start, run, n - 1);
    }
  }

  /**
   Since the count of trips last stood at none, cooldowns escalate while the
   pressure is unrelieved: the base, then double after every trip, up to the
   maximum.
   */
  lemma CooldownsEscalate(cfg: Config, ceiling: int, start: int, run: seq<Timed>, m: nat, n: nat)
    requires m <= n < |run| && Unrelieved(cfg, ceiling, start, run, m, n) && Trip(cfg, ceiling, start, run, n)
    requires At(cfg, ceiling, start, run, m).consecutive == 0
    ensures var trips := TripsBefore(cfg, ceiling, start, run, n) - TripsBefore(cfg, ceiling, start, run, m);
            && trips >= 0
            && At(cfg, ceiling, start, run, n + 1).coolingUntil - run[n].now ==
               if trips == 0 then cfg.baseCooldown else Min(cfg.baseCooldown * Pow2(trips), cfg.maxCooldown)
  {
    hide InWindow, Ids, At;
    ConsecutiveCountsTrips(cfg, ceiling, start, run, m, n);
    AtNext(cfg, ceiling, start, run, n);
  }

  lemma AtNext(cfg: Config, ceiling: int, start: int, run: seq<Timed>, n: nat)
    requires n < |run|
    ensures At(cfg, ceiling, start, run, n + 1) == After(cfg, ceiling, At(cfg, ceiling, start, run, n), run[n])
  {
  }

  /** A download that completes outside a cooldown makes the next one, however late, a base cooldown again. */
  lemma CompletionRestartsBackoff(cfg: Config, ceiling: int, start: int, run: seq<Timed>, i: nat, n: nat)
    requires cfg.enabled && i < n < |run| && run[i].call.Clean? && !Cooling(At(cfg, ceiling, start, run, i), run[i].now)
    requires Trip(cfg, ceiling, start, run, n) && forall k :: i < k < n ==> !Trip(cfg, ceiling, start, run, k)
    ensures At(cfg, ceiling, start, run, n + 1).coolingUntil == run[n].now + cfg.baseCooldown
  {
    hide InWindow, Ids, At, CooldownLength;
    AtNext(cfg, ceiling, start, run, i);
    StaysAtNone(cfg, ceiling, start, run, i + 1, n);
    TripsUnchanged(cfg, ceiling, start, run, i + 1, n);
    CooldownsEscalate(cfg, ceiling, start, run, i + 1, n);
  }

  /** Without a trip the counter does not leave none. */
  lemma {:induction false} StaysAtNone(cfg: Config, ceiling: int, start: int, run: seq<Timed>, m: nat, n: nat)
    requires m <= n <= |run| && At(cfg, ceiling, start, run, m).consecutive == 0
    requires forall k :: m <= k < n ==> !Trip(cfg, ceiling, start, run, k)
    ensures forall k :: m <= k <= n ==> At(cfg, ceiling, start, run, k).consecutive == 0
    decreases n
  {
    hide InWindow, Ids, At, CooldownLength;
    if m < n {
      StaysAtNone(cfg, ceiling, start, run, m, n - 1);
      assert !Trip(cfg, ceiling, start, run, n - 1);
      AtNext(cfg, ceiling, start, run, n - 1);
    }
  }

  lemma {:induction false} TripsUnchanged(cfg: Config, ceiling: int, start: int, run: seq<Timed>, m: nat, n: nat)
    requires m <= n <= |run| && forall k :: m <= k < n ==> !Trip(cfg, ceiling, start, run, k)
    ensures TripsBefore(cfg, ceiling, start, run, n) == TripsBefore(cfg, ceiling, start, run, m)
    decreases n
  {
    hide Trip;
    if m < n {
      TripsUnchanged(cfg, ceiling, start, run, m, n - 1);
    }
  }

  // ---- what trips ----

  /** The downloads that stalled among the calls from r up to n, later than the cutoff. */
  ghost function StalledSince(run: seq<Timed>, r: nat, n: nat, cutoff: int): set<string>
    requires r <= n <= |run|
  {
    set i: nat | r <= i < n && run[i].call.Stall? && run[i].now > cutoff :: run[i].call.id
  }

  /** Since the last resume, the events still inside the window are exactly the stalls of the run inside it. */
  lemma {:induction false} EventsAreStalls(cfg: Config, ceiling: int, start: int, run: seq<Timed>, r: nat, n: nat, cutoff: int)
    requires cfg.enabled && Configured(cfg, ceiling) && Run(start, run) && r <= n <= |run| && NoResume(run, r, n)
    requires At(cfg, ceiling, start, run, r).events == []
    requires cutoff >= ClockAt(start, run, n) - cfg.window
    ensures forall id :: (exists e :: e in At(cfg, ceiling, start, run, n).events && e.id == id && e.at > cutoff)
                         <==> id in StalledSince(run, r, n, cutoff)
    decreases n
  {
    hide At, InWindow, Ids, CooldownLength;
    if r < n {
      var s, t := At(cfg, ceiling, start, run, n - 1), run[n - 1];
      ClockAdvances(start, run, n);
      EventsAreStalls(cfg, ceiling, start, run, r, n - 1, cutoff);
      AtNext(cfg, ceiling, start, run, n - 1);
      EventsAfter(cfg, ceiling, s, t, cutoff);
      StalledMore(run, r, n, cutoff);
      forall id
        ensures (exists e :: e in At(cfg, ceiling, start, run, n).events && e.id == id && e.at > cutoff)
                <==> id in StalledSince(run, r, n, cutoff)
      {
        if e :| e in s.events && e.id == id && e.at > cutoff {
          assert e in After(cfg, ceiling, s, t).events;
        }
        if t.call.Stall? && t.call.id == id && t.now > cutoff {
          assert StallEvent(id, t.now) in After(cfg, ceiling, s, t).events;
        }
      }
    } else {
      assert StalledSince(run, r, n, cutoff) == {};
    }
  }

  lemma ClockAdvances(start: int, run: seq<Timed>, n: nat)
    requires Run(start, run) && 0 < n <= |run|
    ensures ClockAt(start, run, n - 1) <= ClockAt(start, run, n) == run[n - 1].now
  {
  }

  lemma StalledMore(run: seq<Timed>, r: nat, n: nat, cutoff: int)
    requires r < n <= |run|
    ensures StalledSince(run, r, n, cutoff) == StalledSince(run, r, n - 1, cutoff) +
              if run[n - 1].call.Stall? && run[n - 1].now > cutoff then {run[n - 1].call.id} else {}
  {
  }

  /** A call adds the stall it is, and drops nothing that is inside the window. */
  lemma EventsAfter(cfg: Config, ceiling: int, s: State, t: Timed, cutoff: int)
    requires cfg.enabled && !t.call.Resume? && cutoff >= t.now - cfg.window
    ensures forall e :: e in After(cfg, ceiling, s, t).events && e.at > cutoff <==>
              (e in s.events && e.at > cutoff) || (t.call.Stall? && e == StallEvent(t.call.id, t.now) && e.at > cutoff)
  {
    hide Ids, CooldownLength, Cooling;
    if t.call.Recover? && Recovers(cfg, s, t.now) {
      assert forall e :: e in s.events ==> e.at <= t.now - cfg.window by {
        forall e | e in s.events
          ensures e.at <= t.now - cfg.window
        {
          assert e !in InWindow(s.events, t.now - cfg.window);
        }
      }
    }
  }

  /**
   A cooldown opens exactly when none is running and, since the last resume,
   enough distinct downloads have stalled within the window, this one included.
   */
  lemma TripsOnClusters(cfg: Config, ceiling: int, start: int, run: seq<Timed>, r: nat, n: nat)
    requires cfg.enabled && Configured(cfg, ceiling) && Run(start, run) && r <= n < |run| && NoResume(run, r, n)
    requires At(cfg, ceiling, start, run, r).events == [] && run[n].call.Stall?
    ensures Trip(cfg, ceiling, start, run, n) <==>
              !Cooling(At(cfg, ceiling, start, run, n), run[n].now)
              && |StalledSince(run, r, n + 1, run[n].now - cfg.window)| >= cfg.threshold
  {
    hide At, InWindow, CooldownLength, Cooling;
    var s, t := At(cfg, ceiling, start, run, n), run[n];
    var cutoff := t.now - cfg.window;
    ClockAdvances(start, run, n + 1);
    EventsAreStalls(cfg, ceiling, start, run, r, n, cutoff);
    StalledMore(run, r, n + 1, cutoff);
    var live := LiveWith(cfg, s, t.call.id, t.now);
    assert forall e :: e in s.events + [StallEvent(t.call.id, t.now)] <==> e in s.events || e == StallEvent(t.call.id, t.now);
    forall id
      ensures id in Ids(live) <==> id in StalledSince(run, r, n + 1, cutoff)
    {
      if id in StalledSince(run, r, n, cutoff) {
        var e :| e in s.events && e.id == id && e.at > cutoff;
        assert e in live;
      }
      if id == t.call.id {
        assert StallEvent(id, t.now) in live;
      }
      if id in Ids(live) {
        var e :| e in live && e.id == id;
        assert e in s.events ==> id in StalledSince(run, r, n, cutoff);
      }
    }
    assert Ids(live) == StalledSince(run, r, n + 1, cutoff);
  }

  /** During the cooldown nothing is admitted. */
  lemma CooldownPausesAdmission(cfg: Config, ceiling: int, start: int, run: seq<Timed>, i: nat, j: nat, now: int)
    requires Configured(cfg, ceiling) && Run(start, run) && i < j <= |run|
    requires Trip(cfg, ceiling, start, run, i) && NoResume(run, i, j)
    requires now < run[i].now + CooldownLength(cfg, At(cfg, ceiling, start, run, i).consecutive)
    ensures Cooling(At(cfg, ceiling, start, run, j), now)
  {
    hide CooldownLength, Ids, InWindow;
    CooldownHolds(cfg, ceiling, start, run, i, j);
  }

  /** How failDownload sees a stall: frozen or not by the throttle's state at that time. */
  function StallFailure(s: State, now: int): Failure {
    Failure(Stalled, None, Cooling(s, now), now)
  }

  /**
   A cooldown freezes the stall budgets: every stall that fails a download
   before the cooldown ends, the tripping one first, is a credit and not a
   strike, and leaves the download retryable, until its credits are spent.
   */
  lemma CooldownFreezesStalls(cfg: Config, ceiling: int, start: int, run: seq<Timed>, i: nat, j: nat, now: int, dl: Download)
    requires Configured(cfg, ceiling) && Run(start, run) && i < j <= |run|
    requires Trip(cfg, ceiling, start, run, i) && NoResume(run, i, j)
    requires now < run[i].now + CooldownLength(cfg, At(cfg, ceiling, start, run, i).consecutive)
    requires dl.stallCount < MAX_STALLS
    ensures var d := AfterFailure(dl, StallFailure(At(cfg, ceiling, start, run, j), now));
            && (d.stallCount == dl.stallCount <==> dl.stallCredits < MAX_STALL_CREDITS)
            && (dl.stallCredits < MAX_STALL_CREDITS ==> d.retryable && d.stallCredits == dl.stallCredits + 1)
  {
    hide CooldownLength, At, Trip, ExponentialBackoff;
    CooldownPausesAdmission(cfg, ceiling, start, run, i, j, now);
  }

  /** A manual resume lifts the cooldown, restores the whole ceiling and forgets the stalls before it. */
  lemma ResumeLiftsCooldown(cfg: Config, ceiling: int, start: int, run: seq<Timed>, i: nat, now: int)
    requires i < |run| && run[i].call.Resume?
    ensures var s := At(cfg, ceiling, start, run, i + 1);
            !Cooling(s, now) && s.activeLimit == ceiling && s.events == [] && s.consecutive == 0
  {
    hide At;
    AtNext(cfg, ceiling, start, run, i);
  }

  // ---- recovery is complete ----

  /** Nothing stands in the way of a recovery at this time. */
  predicate Quiet(cfg: Config, s: State, now: int) {
    !Cooling(s, now) && now >= s.nextRecoverAt && forall e :: e in s.events ==> e.at <= now - cfg.window
  }

  lemma {:induction false} AllExpired(events: seq<StallEvent>, cutoff: int)
    requires forall e :: e in events ==> e.at <= cutoff
    ensures InWindow(events, cutoff) == []
  {
    if events != [] {
      AllExpired(events[1..], cutoff);
    }
  }

  /** From i to n there is neither a stall nor a resume: any worker may recover or complete, as often as it likes. */
  predicate Calm(run: seq<Timed>, i: nat, n: nat)
    requires i <= n <= |run|
  {
    forall k :: i <= k < n ==> run[k].call.Recover? || run[k].call.Clean?
  }

  /** Recover calls of a run between i and n, in order, each at least the gap after those before it. */
  predicate SpacedRecoveries(run: seq<Timed>, js: seq<nat>, i: nat, n: nat, gap: int)
    requires i <= n <= |run|
  {
    && (forall k :: 0 <= k < |js| ==> i <= js[k] < n && run[js[k]].call.Recover?)
    && (forall k, l :: 0 <= k < l < |js| ==> js[k] < js[l] && run[js[l]].now >= run[js[k]].now + gap)
  }

  /** What a calm call does: a quiet state is raised by a recovery, and otherwise the gate moves only together with the limit. */
  lemma CalmCall(cfg: Config, ceiling: int, s: State, t: Timed)
    requires cfg.enabled && Usable(cfg) && s.activeLimit <= ceiling && (t.call.Recover? || t.call.Clean?)
    ensures var next := After(cfg, ceiling, s, t);
            && next.coolingUntil == s.coolingUntil && (forall e :: e in next.events ==> e in s.events)
            && ((next.activeLimit == s.activeLimit && next.nextRecoverAt == s.nextRecoverAt)
                || (t.call.Recover? && next.activeLimit == Min(s.activeLimit + 1, ceiling)
                    && next.nextRecoverAt == t.now + cfg.cooldownUp))
            && (t.call.Recover? && Quiet(cfg, s, t.now) ==>
                  next.activeLimit == Min(s.activeLimit + 1, ceiling) && next.nextRecoverAt == t.now + cfg.cooldownUp)
  {
    if t.call.Recover? && Quiet(cfg, s, t.now) {
      AllExpired(s.events, t.now - cfg.window);
    }
  }

  /** A state some spaced recoveries past another: the limit is that much higher, and one more if the gate is not open when the next is due. */
  ghost predicate Ahead(ceiling: int, was: State, s: State, count: nat, due: int) {
    && s.coolingUntil == was.coolingUntil && (forall e :: e in s.events ==> e in was.events)
    && was.activeLimit <= s.activeLimit <= ceiling
    && s.activeLimit >= Min(ceiling, was.activeLimit + count)
    && (s.nextRecoverAt <= due || s.activeLimit >= Min(ceiling, was.activeLimit + count + 1))
  }

  lemma SpacedCall(cfg: Config, ceiling: int, was: State, s: State, clock: int, t: Timed, quiet: int, count: nat, due: int)
    requires cfg.enabled && Sound(cfg, ceiling, s, clock) && Usable(cfg) && clock <= t.now && t.call.Recover?
    requires Quiet(cfg, was, quiet) && quiet <= t.now && t.now + cfg.cooldownUp <= due
    requires Ahead(ceiling, was, s, count, t.now)
    ensures Ahead(ceiling, was, After(cfg, ceiling, s, t), count + 1, due)
    ensures s.activeLimit == Min(ceiling, was.activeLimit + count) ==>
              After(cfg, ceiling, s, t).activeLimit == Min(ceiling, was.activeLimit + count + 1)
  {
    hide After;
    CalmCall(cfg, ceiling, s, t);
    QuietWhenDue(cfg, was, s, quiet, t.now);
    GateWithinGap(cfg, ceiling, s, clock, was, quiet, t.now);
    hide Quiet, Sound;
  }

  lemma OtherCall(cfg: Config, ceiling: int, was: State, s: State, t: Timed, count: nat, due: int)
    requires cfg.enabled && Usable(cfg) && (t.call.Recover? || t.call.Clean?) && Ahead(ceiling, was, s, count, due)
    ensures Ahead(ceiling, was, After(cfg, ceiling, s, t), count, due)
    ensures t.call.Clean? ==> After(cfg, ceiling, s, t).activeLimit == s.activeLimit
  {
    CalmCall(cfg, ceiling, s, t);
    hide Quiet, After;
  }

  /** The induction behind RecoveryCompletes, up to the m-th call. */
  lemma {:induction false} RecoveredBy(cfg: Config, ceiling: int, start: int, run: seq<Timed>, i: nat, m: nat, js: seq<nat>,
                                       quiet: int, due: int)
    requires cfg.enabled && Configured(cfg, ceiling) && Run(start, run) && i <= m <= |run| && Calm(run, i, m)
    requires SpacedRecoveries(run, js, i, m, cfg.cooldownUp)
    requires Quiet(cfg, At(cfg, ceiling, start, run, i), quiet) && quiet <= due
    requires js != [] ==> quiet <= run[js[0]].now && run[js[|js| - 1]].now + cfg.cooldownUp <= due
    ensures Ahead(ceiling, At(cfg, ceiling, start, run, i), At(cfg, ceiling, start, run, m), |js|, due)
    ensures (forall k :: i <= k < m && run[k].call.Recover? ==> k in js) ==>
              At(cfg, ceiling, start, run, m).activeLimit
              == Min(ceiling, At(cfg, ceiling, start, run, i).activeLimit + |js|)
    decreases m
  {
    hide At, After, Quiet, Sound, Ahead, Calm, SpacedRecoveries, Run, Usable;
    if i == m {
      if js != [] {
        SpacedTakeRoom(run, js, i, m, cfg.cooldownUp);
      }
      EveryStateSound(cfg, ceiling, start, run, i);
      NoneAhead(cfg, ceiling, At(cfg, ceiling, start, run, i), ClockAt(start, run, i), quiet, due);
    } else {
      var was, s, t := At(cfg, ceiling, start, run, i), At(cfg, ceiling, start, run, m - 1), run[m - 1];
      EveryStateSound(cfg, ceiling, start, run, m - 1);
      AtNext(cfg, ceiling, start, run, m - 1);
      LastCalm(start, run, i, m);
      UsableGap(cfg);
      if js != [] && js[|js| - 1] == m - 1 {
        SpacedInit(run, js, i, m, cfg.cooldownUp, quiet);
        RecoveredBy(cfg, ceiling, start, run, i, m - 1, js[..|js| - 1], quiet, t.now);
        SpacedCall(cfg, ceiling, was, s, ClockAt(start, run, m - 1), t, quiet, |js| - 1, due);
      } else {
        SpacedShorter(run, js, i, m, cfg.cooldownUp);
        RecoveredBy(cfg, ceiling, start, run, i, m - 1, js, quiet, due);
        OtherCall(cfg, ceiling, was, s, t, |js|, due);
      }
    }
  }

  lemma SpacedTakeRoom(run: seq<Timed>, js: seq<nat>, i: nat, n: nat, gap: int)
    requires i <= n <= |run| && SpacedRecoveries(run, js, i, n, gap) && js != []
    ensures i < n
  {
    assert i <= js[0] < n;
  }

  lemma LastCalm(start: int, run: seq<Timed>, i: nat, m: nat)
    requires Run(start, run) && i < m <= |run| && Calm(run, i, m)
    ensures Calm(run, i, m - 1) && (run[m - 1].call.Recover? || run[m - 1].call.Clean?)
    ensures ClockAt(start, run, m - 1) <= run[m - 1].now
  {
  }

  lemma UsableGap(cfg: Config)
    requires Usable(cfg)
    ensures cfg.cooldownUp > 0
  {
  }

  lemma NoneAhead(cfg: Config, ceiling: int, s: State, clock: int, quiet: int, due: int)
    requires Sound(cfg, ceiling, s, clock) && Quiet(cfg, s, quiet) && quiet <= due
    ensures Ahead(ceiling, s, s, 0, due) && s.activeLimit == Min(ceiling, s.activeLimit)
  {
  }

  lemma QuietWhenDue(cfg: Config, was: State, s: State, quiet: int, now: int)
    requires Quiet(cfg, was, quiet) && quiet <= now && s.coolingUntil == was.coolingUntil
    requires forall e :: e in s.events ==> e in was.events
    ensures s.nextRecoverAt <= now ==> Quiet(cfg, s, now)
  {
  }

  lemma GateWithinGap(cfg: Config, ceiling: int, s: State, clock: int, was: State, quiet: int, now: int)
    requires Usable(cfg) && Sound(cfg, ceiling, s, clock) && clock <= now
    requires Quiet(cfg, was, quiet) && quiet <= now && s.coolingUntil == was.coolingUntil
    ensures s.nextRecoverAt <= now + cfg.cooldownUp
  {
  }

  lemma SpacedInit(run: seq<Timed>, js: seq<nat>, i: nat, m: nat, gap: int, quiet: int)
    requires i < m <= |run| && gap > 0 && js != [] && js[|js| - 1] == m - 1 && SpacedRecoveries(run, js, i, m, gap)
    requires quiet <= run[js[0]].now
    ensures var init := js[..|js| - 1];
            && SpacedRecoveries(run, init, i, m - 1, gap) && quiet <= run[m - 1].now && run[m - 1].call.Recover?
            && (init != [] ==> quiet <= run[init[0]].now && run[init[|init| - 1]].now + gap <= run[m - 1].now)
            && (forall k :: i <= k < m - 1 ==> (k in js <==> k in init))
  {
  }

  lemma SpacedShorter(run: seq<Timed>, js: seq<nat>, i: nat, m: nat, gap: int)
    requires i < m <= |run| && SpacedRecoveries(run, js, i, m, gap) && (js != [] ==> js[|js| - 1] != m - 1)
    ensures SpacedRecoveries(run, js, i, m - 1, gap) && m - 1 !in js
  {
  }

  /**
   Recovery is complete. Once a state of a run is quiet, k recover calls a
   CooldownUp apart, with any recoveries and completions of any worker between
   them, bring the limit to the ceiling or at least k higher, and to no more
   when they are the only recover calls, as long as nothing stalls.
   */
  lemma RecoveryCompletes(cfg: Config, ceiling: int, start: int, run: seq<Timed>, i: nat, n: nat, js: seq<nat>)
    requires cfg.enabled && Configured(cfg, ceiling) && Run(start, run) && i <= n <= |run| && Calm(run, i, n)
    requires SpacedRecoveries(run, js, i, n, cfg.cooldownUp)
    requires js != [] && Quiet(cfg, At(cfg, ceiling, start, run, i), run[js[0]].now)
    ensures var was, now := At(cfg, ceiling, start, run, i).activeLimit, At(cfg, ceiling, start, run, n).activeLimit;
            && now >= Min(ceiling, was + |js|)
            && ((forall k :: i <= k < n && run[k].call.Recover? ==> k in js) ==> now == Min(ceiling, was + |js|))
  {
    hide At, Quiet;
    RecoveredBy(cfg, ceiling, start, run, i, n, js, run[js[0]].now, run[js[|js| - 1]].now + cfg.cooldownUp);
  }

  /** Every sound state becomes quiet: once the cooldown, the gate and the window of the last stall have passed. */
  lemma QuietEventually(cfg: Config, ceiling: int, s: State, clock: int, now: int)
    requires Usable(cfg) && Sound(cfg, ceiling, s, clock)
    requires now >= Max(clock, s.coolingUntil) + cfg.cooldownUp + cfg.window
    ensures Quiet(cfg, s, now)
  {
  }
}
