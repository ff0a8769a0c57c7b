/**
 The adaptive throttle: internal/download/throttle.go.
 Times are nanoseconds of one clock that never runs backwards; each method is
 one atomic step that reads it once. Step functions on states say what a
 method does without its loops; runs of steps carry the whole-run properties.
 */
module Throttle {

  datatype Config = Config(
    enabled: bool,
    threshold: int,
    window: int,
    baseCooldown: int,
    maxCooldown: int,
    cooldownUp: int,
    floor: int)

  /** What resolving the tunables leaves: every duration is positive. */
  predicate Usable(cfg: Config) {
    cfg.window > 0 && cfg.baseCooldown > 0 && cfg.maxCooldown > 0 && cfg.cooldownUp > 0
  }

  datatype StallEvent = StallEvent(id: string, at: int)

  datatype State = State(
    activeLimit: int,
    events: seq<StallEvent>,
    coolingUntil: int,
    consecutive: nat,
    nextRecoverAt: int)

  /** The configuration as the constructor clamps it. */
  function Clamped(cfg: Config, ceiling: int): Config {
    var floor := if cfg.floor < 1 then 1 else cfg.floor;
    cfg.(floor := if floor > AtLeastOne(ceiling) then AtLeastOne(ceiling) else floor,
         threshold := AtLeastOne(cfg.threshold))
  }

  function AtLeastOne(n: int): int {
    if n < 1 then 1 else n
  }

  function Max(a: int, b: int): int {
    if a < b then b else a
  }

  function Min(a: int, b: int): int {
    if a < b then a else b
  }

  // ---- what each step means ----

  /** The events still inside the window. */
  function InWindow(events: seq<StallEvent>, cutoff: int): (live: seq<StallEvent>)
    ensures forall e :: e in live <==> e in events && e.at > cutoff
  {
    if events == [] then []
    else if events[0].at > cutoff then [events[0]] + InWindow(events[1..], cutoff)
    else InWindow(events[1..], cutoff)
  }

  function Ids(events: seq<StallEvent>): set<string> {
    set e | e in events :: e.id
  }

  predicate Cooling(s: State, now: int) {
    s.coolingUntil != 0 && now < s.coolingUntil
  }

  function Pow2(n: nat): nat {
    if n == 0 then 1 else 2 * Pow2(n - 1)
  }

  /** The first cooldown is the base, the next ones double up to the maximum. */
  function CooldownLength(cfg: Config, consecutive: nat): int {
    if consecutive == 0 then cfg.baseCooldown else Min(cfg.baseCooldown * Pow2(consecutive), cfg.maxCooldown)
  }

  function LiveWith(cfg: Config, s: State, id: string, now: int): seq<StallEvent> {
    InWindow(s.events + [StallEvent(id, now)], now - cfg.window)
  }

  /** A stall opens a cooldown: none is running and enough distinct downloads stalled within the window. */
  predicate Trips(cfg: Config, s: State, id: string, now: int) {
    cfg.enabled && !Cooling(s, now) && |Ids(LiveWith(cfg, s, id, now))| >= cfg.threshold
  }

  function AfterStall(cfg: Config, s: State, id: string, now: int): State {
    if !cfg.enabled then s
    else if !Trips(cfg, s, id, now) then s.(events := LiveWith(cfg, s, id, now))
    else
      var until := now + CooldownLength(cfg, s.consecutive);
      State(Max(s.activeLimit / 2, cfg.floor), LiveWith(cfg, s, id, now), until, s.consecutive + 1, until + cfg.cooldownUp)
  }

  function AfterClean(cfg: Config, s: State, now: int): State {
    if cfg.enabled && !Cooling(s, now) then s.(consecutive := 0) else s
  }

  /** A clean window has passed: no cooldown, no event in the window, and the gate is open. */
  predicate Recovers(cfg: Config, s: State, now: int) {
    cfg.enabled && !Cooling(s, now) && InWindow(s.events, now - cfg.window) == [] && now >= s.nextRecoverAt
  }

  function AfterRecover(cfg: Config, ceiling: int, s: State, now: int): State {
    if !cfg.enabled then s
    else if !Recovers(cfg, s, now) then s.(events := InWindow(s.events, now - cfg.window))
    else
      var limit := Min(s.activeLimit + 1, ceiling);
      State(limit, [], s.coolingUntil, if limit >= ceiling then 0 else s.consecutive, now + cfg.cooldownUp)
  }

  function AfterResume(cfg: Config, ceiling: int, now: int): State {
    State(ceiling, [], 0, 0, now + cfg.cooldownUp)
  }

  // ---- the invariant of every reachable state ----

  predicate TimeSorted(events: seq<StallEvent>) {
    forall i, j :: 0 <= i < j < |events| ==> events[i].at <= events[j].at
  }

  /** A state as of a clock reading. */
  ghost predicate Sound(cfg: Config, ceiling: int, s: State, clock: int) {
    && 1 <= cfg.floor <= s.activeLimit <= ceiling
    && TimeSorted(s.events)
    && (forall e :: e in s.events ==> e.at <= clock)
    && 0 <= s.coolingUntil && 0 < clock
    && (s.coolingUntil != 0 ==> s.nextRecoverAt >= s.coolingUntil + cfg.cooldownUp)
    && s.nextRecoverAt <= Max(clock, s.coolingUntil) + cfg.cooldownUp
  }

  lemma {:induction false} InWindowSorted(events: seq<StallEvent>, cutoff: int)
    requires TimeSorted(events)
    ensures TimeSorted(InWindow(events, cutoff))
  {
    if events != [] {
      var rest := InWindow(events[1..], cutoff);
      InWindowSorted(events[1..], cutoff);
      if events[0].at > cutoff {
        forall j | 0 <= j < |rest|
          ensures events[0].at <= rest[j].at
        {
          assert rest[j] in events[1..];
        }
      }
    }
  }

  /** On a sorted list, dropping the expired events from the front is filtering by the window. */
  lemma {:induction false} DroppingIsFiltering(events: seq<StallEvent>, cutoff: int, i: nat)
    requires TimeSorted(events) && i <= |events|
    requires forall k :: 0 <= k < i ==> events[k].at <= cutoff
    requires i < |events| ==> events[i].at > cutoff
    ensures events[i..] == InWindow(events, cutoff)
  {
    if i > 0 {
      DroppingIsFiltering(events[1..], cutoff, i - 1);
      assert events[i..] == events[1..][i - 1..];
    } else {
      NothingExpired(events, cutoff);
    }
  }

  lemma {:induction false} NothingExpired(events: seq<StallEvent>, cutoff: int)
    requires TimeSorted(events) && (events != [] ==> events[0].at > cutoff)
    ensures InWindow(events, cutoff) == events
  {
    if events != [] {
      NothingExpired(events[1..], cutoff);
    }
  }

  lemma StillSorted(events: seq<StallEvent>, e: StallEvent)
    requires TimeSorted(events) && forall f :: f in events ==> f.at <= e.at
    ensures TimeSorted(events + [e])
  {
  }

  lemma CooldownPositive(cfg: Config, consecutive: nat)
    requires Usable(cfg)
    ensures CooldownLength(cfg, consecutive) > 0
  {
    Pow2Positive(consecutive);
  }

  lemma {:induction false} Pow2Positive(n: nat)
    ensures Pow2(n) >= 1
  {
    if n > 0 {
      Pow2Positive(n - 1);
    }
  }

  /** Dropping the expired events from the front of a sound state filters its window and keeps it sound. */
  lemma PrunedIsSound(cfg: Config, ceiling: int, s: State, clock: int, now: int, i: nat)
    requires Sound(cfg, ceiling, s, clock) && clock <= now && i <= |s.events|
    requires Usable(cfg)
    requires forall k :: 0 <= k < i ==> s.events[k].at <= now - cfg.window
    requires i < |s.events| ==> s.events[i].at > now - cfg.window
    ensures s.events[i..] == InWindow(s.events, now - cfg.window)
    ensures Sound(cfg, ceiling, s.(events := s.events[i..]), now)
  {
    hide InWindow;
    DroppingIsFiltering(s.events, now - cfg.window, i);
    InWindowSorted(s.events, now - cfg.window);
  }

  // ---- the class ----

  class AdaptiveThrottle {
    const cfg: Config
    const ceiling: int
    var activeLimit: int
    var events: seq<StallEvent>
    var coolingUntil: int
    var consecutive: nat
    var nextRecoverAt: int
    /** The last reading of the clock. */
    ghost var clock: int

    ghost function Now(): State
      reads this
    {
      State(activeLimit, events, coolingUntil, consecutive, nextRecoverAt)
    }

    ghost predicate Valid()
      reads this
    {
      Usable(cfg) && Sound(cfg, ceiling, Now(), clock)
    }

    constructor (given: Config, limit: int, now: int)
      requires Usable(given) && now > 0
      ensures Valid() && clock == now
      ensures cfg == Clamped(given, limit) && ceiling == AtLeastOne(limit)
      ensures Now() == State(AtLeastOne(limit), [], 0, 0, now + given.cooldownUp)
    {
      cfg := Clamped(given, limit);
      ceiling := AtLeastOne(limit);
      activeLimit := AtLeastOne(limit);
      events, coolingUntil, consecutive := [], 0, 0;
      nextRecoverAt := now + given.cooldownUp;
      clock := now;
    }

    predicate InCooldown(now: int)
      reads this
    {
      coolingUntil != 0 && now < coolingUntil
    }

    /** admit: a worker may claim another download. */
    method Admit(claimed: nat, now: int) returns (ok: bool)
      requires Valid()
      ensures ok <==> !cfg.enabled || (!Cooling(Now(), now) && claimed < activeLimit)
    {
      if !cfg.enabled {
        return true;
      }
      if InCooldown(now) {
        return false;
      }
      return claimed < activeLimit;
    }

    /** pruneLocked. */
    method Prune(now: int)
      requires Valid() && clock <= now
      modifies this`events, this`clock
      ensures Valid() && clock == now
      ensures Now() == old(Now()).(events := InWindow(old(events), now - cfg.window))
    {
      hide Sound, InWindow, Usable;
      ghost var s := Now();
      var cutoff := now - cfg.window;
      var i := 0;
      while i < |events| && events[i].at <= cutoff
        invariant 0 <= i <= |events|
        invariant forall k :: 0 <= k < i ==> events[k].at <= cutoff
      {
        i := i + 1;
      }
      PrunedIsSound(cfg, ceiling, s, clock, now, i);
      events := events[i..];
      clock := now;
    }

    /** distinctLocked. */
    method Distinct() returns (n: nat)
      ensures n == |Ids(events)|
    {
      var seen := {};
      for i := 0 to |events|
        invariant seen == Ids(events[..i])
      {
        assert events[..i + 1] == events[..i] + [events[i]];
        seen := seen + {events[i].id};
      }
      assert events[..|events|] == events;
      n := |seen|;
    }

    /** The doubling loop of recordStall. */
    method Backoff() returns (d: int)
      requires Usable(cfg)
      ensures d == CooldownLength(cfg, consecutive)
    {
      d := cfg.baseCooldown;
      var i := 0;
      while i < consecutive
        invariant 0 <= i <= consecutive
        invariant d == cfg.baseCooldown * Pow2(i)
        invariant i > 0 ==> d < cfg.maxCooldown
      {
        d, i := d * 2, i + 1;
        DoublingMonotone(cfg.baseCooldown, i, consecutive);
        if d >= cfg.maxCooldown {
          return cfg.maxCooldown;
        }
      }
    }

    method RecordStall(id: string, now: int)
      requires Valid() && clock <= now
      modifies this
      ensures Valid() && clock == now
      ensures Now() == AfterStall(cfg, old(Now()), id, now)
    {
      hide InWindow, Ids, CooldownLength;
      clock := now;
      if !cfg.enabled {
        return;
      }
      StillSorted(events, StallEvent(id, now));
      events := events + [StallEvent(id, now)];
      Prune(now);
      if InCooldown(now) {
        return;
      }
      var n := Distinct();
      if n < cfg.threshold {
        return;
      }
      var d := Backoff();
      CooldownPositive(cfg, consecutive);
      coolingUntil := now + d;
      consecutive := consecutive + 1;
      var next := activeLimit / 2;
      activeLimit := if next < cfg.floor then cfg.floor else next;
      nextRecoverAt := now + d + cfg.cooldownUp;
    }

    method RecordClean(now: int)
      requires Valid() && clock <= now
      modifies this
      ensures Valid() && clock == now
      ensures Now() == AfterClean(cfg, old(Now()), now)
    {
      clock := now;
      if !cfg.enabled {
        return;
      }
      if !InCooldown(now) {
        consecutive := 0;
      }
    }

    method MaybeRecover(now: int)
      requires Valid() && clock <= now
      modifies this
      ensures Valid() && clock == now
      ensures Now() == AfterRecover(cfg, ceiling, old(Now()), now)
    {
      hide InWindow;
      clock := now;
      if !cfg.enabled {
        return;
      }
      Prune(now);
      if InCooldown(now) || |events| > 0 {
        return;
      }
      if now < nextRecoverAt {
        return;
      }
      if activeLimit < ceiling {
        activeLimit := activeLimit + 1;
      }
      if activeLimit >= ceiling {
        consecutive := 0;
      }
      nextRecoverAt := now + cfg.cooldownUp;
    }

    /** clearCooldown: a manual resume. */
    method ClearCooldown(now: int)
      requires Valid() && clock <= now
      modifies this
      ensures Valid() && clock == now
      ensures Now() == AfterResume(cfg, ceiling, now)
    {
      coolingUntil, activeLimit, consecutive, events := 0, ceiling, 0, [];
      nextRecoverAt := now + cfg.cooldownUp;
      clock := now;
    }
  }

  lemma DoublingMonotone(base: int, i: nat, n: nat)
    requires base > 0 && i <= n
    ensures base * Pow2(i) <= base * Pow2(n)
    decreases n - i
  {
    if i < n {
      Pow2Positive(i);
      assert Pow2(i + 1) == 2 * Pow2(i);
      DoublingMonotone(base, i + 1, n);
      assert base * Pow2(i) <= base * Pow2(i + 1);
    }
  }
}
