/**
 The quality cache and its two readers: internal/bbc/prober.go. The feed
 wants a show's heights and takes any row; an availability check wants this
 programme's own answer and takes only a row that a probe of it wrote.
 */
module QualityCache {
  import opened Text
  import opened Streams
  import opened Heights
  import opened Prober

  datatype Row = Row(heights: seq<int>, propagated: bool)

  type Cache = map<string, Row>

  /** The cacheable probes made so far: the programme and the heights it gave. */
  type Evidence = set<(string, seq<int>)>

  /** A row its own programme's probe wrote. */
  predicate OwnRow(cache: Cache, pid: string) {
    pid in cache && !cache[pid].propagated
  }

  /** Some cacheable probe gave these heights. */
  ghost predicate Evidenced(evidence: Evidence, heights: seq<int>) {
    exists pid :: (pid, heights) in evidence
  }

  /** An own row is its programme's own evidence; a propagated one repeats someone's. */
  ghost predicate Provenance(cache: Cache, evidence: Evidence) {
    forall pid :: pid in cache ==>
      if cache[pid].propagated then Evidenced(evidence, cache[pid].heights) else (pid, cache[pid].heights) in evidence
  }

  /** The heights of an outcome; a Go nil slice is the empty list. */
  ghost function HeightsIn(o: Outcome): seq<int> {
    if o.Found? then o.heights else []
  }

  ghost predicate IsCacheable(o: Outcome) {
    o.Found? && o.cacheable
  }

  /** The first programme of a group with a row of either kind. */
  function FirstCached(cache: Cache, group: seq<string>): (first: Option<string>)
    ensures first.Some? ==> first.value in cache && first.value in group
  {
    if group == [] then None else if group[0] in cache then Some(group[0]) else FirstCached(cache, group[1..])
  }

  /** The first heights the programmes of a group answer with. */
  ghost function FirstHeights(group: seq<string>, answers: string -> Answer): seq<int> {
    if group == [] then []
    else if HeightsIn(OutcomeOf(answers(group[0]))) != [] then HeightsIn(OutcomeOf(answers(group[0])))
    else FirstHeights(group[1..], answers)
  }

  ghost predicate AnyNotYet(group: seq<string>, answers: string -> Answer) {
    exists pid :: pid in group && OutcomeOf(answers(pid)).NotYet?
  }

  /** What propagateToSiblings leaves: a group member's own row stays, every other member gets the heights. */
  function Spread(cache: Cache, group: seq<string>, from: string, heights: seq<int>): Cache {
    map pid | pid in cache.Keys + (set p | p in group) && (pid in cache || pid != from) ::
      if pid in group && pid != from && !OwnRow(cache, pid) then Row(heights, true) else cache[pid]
  }

  /** What probing a group one by one leaves, when none of it was cached: a row for each cacheable answer. */
  ghost function ProbedEach(cache: Cache, group: seq<string>, answers: string -> Answer): Cache {
    map pid | pid in cache.Keys + (set p | p in group) && (pid in group ==> IsCacheable(OutcomeOf(answers(pid)))) ::
      if pid in group then Row(HeightsIn(OutcomeOf(answers(pid))), false) else cache[pid]
  }

  /** What a feed probe of a group leaves in the cache. */
  ghost function ProbedGroup(cache: Cache, group: seq<string>, answers: string -> Answer): Cache
    requires group != []
  {
    var leader, first := OutcomeOf(answers(group[0])), FirstCached(cache, group);
    if first.Some? then Spread(cache, group, first.value, cache[first.value].heights)
    else if HeightsIn(leader) == [] then ProbedEach(cache, group, answers)
    else if !IsCacheable(leader) then cache
    else Spread(cache[group[0] := Row(leader.heights, false)], group, group[0], leader.heights)
  }

  // ---- the prober, one call at a time ----

  class QualityProber {
    var cache: Cache
    ghost var evidence: Evidence

    ghost predicate Valid()
      reads this
    {
      Provenance(cache, evidence)
    }

    constructor ()
      ensures Valid() && cache == map[] && evidence == {}
    {
      cache, evidence := map[], {};
    }

    /** probeOne: the heights, whether the playlist was empty, and whether the heights are in the cache. */
    method ProbeOne(pid: string, a: Answer) returns (heights: seq<int>, notYet: bool, cached: bool)
      requires Valid()
      modifies this
      ensures Valid()
      ensures OwnRow(old(cache), pid) ==>
                cache == old(cache) && evidence == old(evidence) && heights == cache[pid].heights && !notYet && cached
      ensures !OwnRow(old(cache), pid) ==>
                var o := OutcomeOf(a);
                && heights == HeightsIn(o) && (notYet <==> o.NotYet?) && (cached <==> IsCacheable(o))
                && cache == (if cached then old(cache)[pid := Row(heights, false)] else old(cache))
                && evidence == (if cached then old(evidence) + {(pid, heights)} else old(evidence))
    {
      hide OutcomeOf;
      if pid in cache && !cache[pid].propagated {
        return cache[pid].heights, false, true;
      }
      var o := Probe(a);
      match o
      case NotYet =>
        return [], true, false;
      case NoAnswer =>
        return [], false, false;
      case Found(h, cacheable) =>
        if cacheable {
          cache := cache[pid := Row(h, false)];
          evidence := evidence + {(pid, h)};
        }
        return h, false, cacheable;
    }

    /** propagateToSiblings, undisturbed: a sibling's own row is kept. */
    method PropagateToSiblings(group: seq<string>, from: string, heights: seq<int>)
      requires Valid() && Evidenced(evidence, heights)
      modifies this`cache
      ensures Valid() && cache == Spread(old(cache), group, from, heights)
    {
      ghost var was := cache;
      for i := 0 to |group|
        invariant cache == Spread(was, group[..i], from, heights)
      {
        var sibling := group[i];
        assert group[..i + 1] == group[..i] + [sibling];
        if sibling != from && !(sibling in cache && !cache[sibling].propagated) {
          cache := cache[sibling := Row(heights, true)];
        }
      }
      assert group[..|group|] == group;
    }

    /**
     probeShowGroup: any cached member answers for the group; else the first
     member that has heights does, the leader's being spread when cacheable.
     The group is reported not yet available only when no member has heights.
     */
    method ProbeShowGroup(group: seq<string>, answers: string -> Answer) returns (heights: seq<int>, notYet: bool)
      requires Valid() && group != []
      modifies this
      ensures Valid()
      ensures var first := FirstCached(old(cache), group);
              if first.Some? then heights == old(cache)[first.value].heights && !notYet && evidence == old(evidence)
              else heights == FirstHeights(group, answers) && (notYet <==> heights == [] && AnyNotYet(group, answers))
      ensures cache == ProbedGroup(old(cache), group, answers)
    {
      hide OutcomeOf;
      for i := 0 to |group|
        invariant FirstCached(cache, group) == FirstCached(cache, group[i..])
      {
        assert group[i..][1..] == group[i + 1..];
        if group[i] in cache {
          heights := cache[group[i]].heights;
          CachedIsEvidenced(cache, evidence, group[i]);
          PropagateToSiblings(group, group[i], heights);
          return heights, false;
        }
      }
      NoneCached(cache, group);
      ghost var was := cache;
      var leaderCached;
      heights, notYet, leaderCached := ProbeOne(group[0], answers(group[0]));
      if heights != [] {
        if leaderCached {
          PropagateToSiblings(group, group[0], heights);
        }
        return heights, false;
      }
      LeaderProbed(was, group, answers, cache);
      heights, notYet := ProbeSiblings(group, answers, notYet, was);
    }

    /** The fallback of probeShowGroup, after a leader without heights. */
    method ProbeSiblings(group: seq<string>, answers: string -> Answer, leaderNotYet: bool, ghost was: Cache)
      returns (heights: seq<int>, notYet: bool)
      requires Valid() && group != [] && (forall pid :: pid in group ==> pid !in was)
      requires HeightsIn(OutcomeOf(answers(group[0]))) == [] && (leaderNotYet <==> AnyNotYet(group[..1], answers))
      requires cache == ProbedEach(was, group[..1], answers)
      modifies this
      ensures Valid() && cache == ProbedEach(was, group, answers)
      ensures heights == FirstHeights(group, answers) && (notYet <==> heights == [] && AnyNotYet(group, answers))
    {
      hide OutcomeOf, IsCacheable, HeightsIn, ProbedEach, AnyNotYet;
      heights, notYet := [], leaderNotYet;
      assert FirstHeights(group[..1], answers) == [];
      for i := 1 to |group|
        invariant Valid() && cache == ProbedEach(was, group[..i], answers)
        invariant heights == FirstHeights(group[..i], answers)
        invariant notYet <==> AnyNotYet(group[..i], answers)
      {
        ghost var before := cache;
        SiblingRow(was, group[..i], group[i], answers);
        var h, nya, _ := ProbeOne(group[i], answers(group[i]));
        assert group[..i + 1] == group[..i] + [group[i]];
        FirstHeightsMore(group[..i], group[i], answers);
        SiblingProbed(was, group[..i], group[i], answers, before, cache, h, nya);
        if h != [] && heights == [] {
          heights := h;
        }
        if nya {
          notYet := true;
        }
      }
      assert group[..|group|] == group;
      if heights != [] {
        notYet := false;
      }
    }
  }

  lemma LeaderProbed(was: Cache, group: seq<string>, answers: string -> Answer, after: Cache)
    requires group != [] && forall pid :: pid in group ==> pid !in was
    requires var o := OutcomeOf(answers(group[0]));
             after == if IsCacheable(o) then was[group[0] := Row(HeightsIn(o), false)] else was
    ensures after == ProbedEach(was, group[..1], answers)
    ensures AnyNotYet(group[..1], answers) <==> OutcomeOf(answers(group[0])).NotYet?
  {
    hide OutcomeOf;
    assert group[..1] == [group[0]];
  }

  /** A sibling has an own row by now only if it was listed before, and then with the same answer. */
  lemma SiblingRow(was: Cache, done: seq<string>, pid: string, answers: string -> Answer)
    requires pid !in was
    ensures var cache := ProbedEach(was, done, answers);
            OwnRow(cache, pid) ==> pid in done && IsCacheable(OutcomeOf(answers(pid)))
                                   && cache[pid].heights == HeightsIn(OutcomeOf(answers(pid)))
  {
    hide OutcomeOf;
  }

  lemma SiblingProbed(was: Cache, done: seq<string>, pid: string, answers: string -> Answer,
                      before: Cache, after: Cache, h: seq<int>, notYet: bool)
    requires pid !in was && before == ProbedEach(was, done, answers)
    requires var o := OutcomeOf(answers(pid));
             if OwnRow(before, pid) then after == before && h == before[pid].heights && !notYet
             else after == (if IsCacheable(o) then before[pid := Row(h, false)] else before)
                  && h == HeightsIn(o) && (notYet <==> o.NotYet?)
    ensures after == ProbedEach(was, done + [pid], answers)
    ensures h == HeightsIn(OutcomeOf(answers(pid)))
    ensures AnyNotYet(done + [pid], answers) <==> AnyNotYet(done, answers) || notYet
  {
    hide OutcomeOf;
    SiblingRow(was, done, pid, answers);
    assert forall p :: p in done + [pid] <==> p in done || p == pid;
  }

  lemma CachedIsEvidenced(cache: Cache, evidence: Evidence, pid: string)
    requires Provenance(cache, evidence) && pid in cache
    ensures Evidenced(evidence, cache[pid].heights)
  {
  }

  lemma {:induction false} NoneCached(cache: Cache, group: seq<string>)
    requires FirstCached(cache, group).None?
    ensures forall pid :: pid in group ==> pid !in cache
  {
    if group != [] {
      NoneCached(cache, group[1..]);
    }
  }

  lemma {:induction false} FirstHeightsMore(group: seq<string>, pid: string, answers: string -> Answer)
    ensures FirstHeights(group + [pid], answers) ==
            if FirstHeights(group, answers) != [] then FirstHeights(group, answers) else HeightsIn(OutcomeOf(answers(pid)))
  {
    hide OutcomeOf;
    if group == [] {
      assert (group + [pid])[1..] == [];
    } else {
      assert (group + [pid])[1..] == group[1..] + [pid];
      FirstHeightsMore(group[1..], pid, answers);
    }
  }

  // ---- every interleaving ----

  /**
   Where a goroutine of either reader is between two store calls: holding a
   cacheable answer it is about to write, spreading one programme's heights
   over its siblings, or past the check of one sibling and about to write its
   row.
   */
  datatype Task =
    | Resting
    | Holding(pid: string, heights: seq<int>)
    | Spreading(leader: string, heights: seq<int>)
    | Writing(leader: string, heights: seq<int>, sibling: string)

  datatype System = System(cache: Cache, evidence: Evidence, tasks: seq<Task>)

  datatype Step =
    | Ask(t: nat, pid: string, answer: Answer)
    | Store(t: nat, thenSpread: bool)
    | TakeRow(t: nat, pid: string)
    | Check(t: nat, sibling: string)
    | Overwrite(t: nat)
    | Rest(t: nat)
    | Forget(pids: set<string>)

  predicate Enabled(s: System, step: Step) {
    match step
    case Forget(_) => true
    case Ask(t, pid, _) => t < |s.tasks| && s.tasks[t].Resting? && !OwnRow(s.cache, pid)
    case Store(t, thenSpread) =>
      t < |s.tasks| && s.tasks[t].Holding? && (thenSpread ==> s.tasks[t].heights != [])
    case TakeRow(t, pid) => t < |s.tasks| && s.tasks[t].Resting? && pid in s.cache
    case Check(t, sibling) =>
      t < |s.tasks| && s.tasks[t].Spreading? && sibling != s.tasks[t].leader && !OwnRow(s.cache, sibling)
    case Overwrite(t) => t < |s.tasks| && s.tasks[t].Writing?
    case Rest(t) => t < |s.tasks|
  }

  ghost function After(s: System, step: Step): System
    requires Enabled(s, step)
  {
    match step
    case Forget(pids) => s.(cache := s.cache - pids)
    case Ask(t, pid, answer) =>
      var o := OutcomeOf(answer);
      if IsCacheable(o) then s.(tasks := s.tasks[t := Holding(pid, o.heights)], evidence := s.evidence + {(pid, o.heights)})
      else s
    case Store(t, thenSpread) =>
      var task := s.tasks[t];
      s.(cache := s.cache[task.pid := Row(task.heights, false)],
         tasks := s.tasks[t := if thenSpread then Spreading(task.pid, task.heights) else Resting])
    case TakeRow(t, pid) => s.(tasks := s.tasks[t := Spreading(pid, s.cache[pid].heights)])
    case Check(t, sibling) => s.(tasks := s.tasks[t := Writing(s.tasks[t].leader, s.tasks[t].heights, sibling)])
    case Overwrite(t) =>
      var task := s.tasks[t];
      s.(cache := s.cache[task.sibling := Row(task.heights, true)], tasks := s.tasks[t := Spreading(task.leader, task.heights)])
    case Rest(t) => s.(tasks := s.tasks[t := Resting])
  }

  ghost predicate Run(states: seq<System>, steps: seq<Step>) {
    && |states| == |steps| + 1
    && states[0].cache == map[] && states[0].evidence == {}
    && (forall t :: 0 <= t < |states[0].tasks| ==> states[0].tasks[t].Resting?)
    && forall i :: 0 <= i < |steps| ==> Enabled(states[i], steps[i]) && states[i + 1] == After(states[i], steps[i])
  }

  /** What a goroutine holds was given by a cacheable probe. */
  ghost predicate Backed(evidence: Evidence, task: Task) {
    match task
    case Resting => true
    case Holding(pid, heights) => (pid, heights) in evidence
    case Spreading(_, heights) => Evidenced(evidence, heights)
    case Writing(_, heights, _) => Evidenced(evidence, heights)
  }

  ghost predicate Traceable(s: System) {
    Provenance(s.cache, s.evidence) && forall t :: 0 <= t < |s.tasks| ==> Backed(s.evidence, s.tasks[t])
  }

  lemma StepKeepsTraceable(s: System, step: Step)
    requires Traceable(s) && Enabled(s, step)
    ensures Traceable(After(s, step)) && After(s, step).evidence >= s.evidence
  {
    hide OutcomeOf;
    match step
    case Ask(t, pid, answer) =>
      var next := After(s, step);
      MoreEvidence(s, next.evidence);
    case TakeRow(t, pid) =>
      CachedIsEvidenced(s.cache, s.evidence, pid);
    case _ =>
  }

  /** Evidence only grows, so what it backs stays backed. */
  lemma MoreEvidence(s: System, evidence: Evidence)
    requires Traceable(s) && evidence >= s.evidence
    ensures Provenance(s.cache, evidence) && forall t :: 0 <= t < |s.tasks| ==> Backed(evidence, s.tasks[t])
  {
    forall heights | Evidenced(s.evidence, heights)
      ensures Evidenced(evidence, heights)
    {
      var pid :| (pid, heights) in s.evidence;
    }
  }

  lemma {:induction false} EveryRowTraceable(states: seq<System>, steps: seq<Step>, n: nat)
    requires Run(states, steps) && n <= |steps|
    ensures Traceable(states[n])
  {
    hide After, Enabled;
    if n > 0 {
      EveryRowTraceable(states, steps, n - 1);
      StepKeepsTraceable(states[n - 1], steps[n - 1]);
    }
  }

  /** The evidence of a run is what its cacheable probes answered. */
  lemma {:induction false} EvidenceIsProbed(states: seq<System>, steps: seq<Step>, n: nat, pid: string, heights: seq<int>)
    requires Run(states, steps) && n <= |steps| && (pid, heights) in states[n].evidence
    ensures exists i :: 0 <= i < n && steps[i].Ask? && steps[i].pid == pid
                        && IsCacheable(OutcomeOf(steps[i].answer)) && OutcomeOf(steps[i].answer).heights == heights
  {
    hide OutcomeOf;
    if n > 0 {
      if (pid, heights) in states[n - 1].evidence {
        EvidenceIsProbed(states, steps, n - 1, pid, heights);
      } else {
        assert steps[n - 1].Ask?;
      }
    }
  }

  /**
   Over any interleaving of feed and availability probes: a row that may
   answer for its own programme exists only because that very programme was
   probed, cacheably, with those heights; and no row of either kind holds
   heights that no cacheable probe gave.
   */
  lemma RowsComeFromProbes(states: seq<System>, steps: seq<Step>, n: nat, pid: string)
    requires Run(states, steps) && n <= |steps| && pid in states[n].cache
    ensures exists i ::
              && 0 <= i < n && steps[i].Ask? && IsCacheable(OutcomeOf(steps[i].answer))
              && OutcomeOf(steps[i].answer).heights == states[n].cache[pid].heights
              && (OwnRow(states[n].cache, pid) ==> steps[i].pid == pid)
  {
    hide OutcomeOf, After, Enabled;
    EveryRowTraceable(states, steps, n);
    var row := states[n].cache[pid];
    var source :| (source, row.heights) in states[n].evidence && (!row.propagated ==> source == pid);
    EvidenceIsProbed(states, steps, n, source, row.heights);
  }

  // ---- how an own row is lost ----

  /** The step stores the programme's own answer. */
  predicate StoresOwn(s: System, step: Step, pid: string) {
    step.Store? && step.t < |s.tasks| && s.tasks[step.t].Holding? && s.tasks[step.t].pid == pid
  }

  /** The step writes a spread row over the programme's. */
  predicate Overwrites(s: System, step: Step, pid: string) {
    step.Overwrite? && step.t < |s.tasks| && s.tasks[step.t].Writing? && s.tasks[step.t].sibling == pid
  }

  predicate Forgets(step: Step, pid: string) {
    step.Forget? && pid in step.pids
  }

  /** A programme's own row comes from its own store, and goes with an overwrite or when the cache is cleared of it. */
  lemma OwnRowStep(s: System, step: Step, pid: string)
    requires Enabled(s, step)
    ensures OwnRow(After(s, step).cache, pid) <==>
              StoresOwn(s, step, pid) || (OwnRow(s.cache, pid) && !Overwrites(s, step, pid) && !Forgets(step, pid))
  {
    hide OutcomeOf;
  }

  lemma StepIs(states: seq<System>, steps: seq<Step>, i: nat)
    requires Run(states, steps) && i < |steps|
    ensures Enabled(states[i], steps[i]) && states[i + 1] == After(states[i], steps[i])
  {
  }

  /** No step from i on, before k, takes the row of a programme. */
  ghost predicate Untouched(states: seq<System>, steps: seq<Step>, i: nat, k: nat, pid: string)
    requires k <= |steps| < |states|
  {
    forall j :: i <= j < k ==> !Overwrites(states[j], steps[j], pid) && !Forgets(steps[j], pid)
  }

  /** Between two moments an own row is stored and then left alone. */
  ghost predicate StoredSince(states: seq<System>, steps: seq<Step>, c: nat, k: nat, pid: string)
    requires k <= |steps| < |states|
  {
    exists m :: c <= m < k && StoresOwn(states[m], steps[m], pid) && Untouched(states, steps, m + 1, k, pid)
  }

  /** From a moment without an own row, there is one later exactly when it was stored in between and left alone since. */
  lemma {:induction false} OwnRowSince(states: seq<System>, steps: seq<Step>, c: nat, k: nat, pid: string)
    requires Run(states, steps) && c <= k <= |steps| && !OwnRow(states[c].cache, pid)
    ensures OwnRow(states[k].cache, pid) <==> StoredSince(states, steps, c, k, pid)
    decreases k
  {
    hide After, Enabled, StoresOwn, Overwrites, Forgets, OwnRow;
    if c < k {
      OwnRowSince(states, steps, c, k - 1, pid);
      StepIs(states, steps, k - 1);
      OwnRowStep(states[k - 1], steps[k - 1], pid);
      StoredSinceMore(states, steps, c, k, pid);
    }
  }

  lemma StoredSinceMore(states: seq<System>, steps: seq<Step>, c: nat, k: nat, pid: string)
    requires c < k <= |steps| < |states|
    ensures StoredSince(states, steps, c, k, pid) <==>
              StoresOwn(states[k - 1], steps[k - 1], pid)
              || (StoredSince(states, steps, c, k - 1, pid)
                  && !Overwrites(states[k - 1], steps[k - 1], pid) && !Forgets(steps[k - 1], pid))
  {
    hide StoresOwn, Overwrites, Forgets;
    if m :| c <= m < k && StoresOwn(states[m], steps[m], pid) && Untouched(states, steps, m + 1, k, pid) {
      if m < k - 1 {
        assert Untouched(states, steps, m + 1, k - 1, pid);
      }
    }
    if StoresOwn(states[k - 1], steps[k - 1], pid) {
      assert Untouched(states, steps, k, k, pid);
    }
    if m :| c <= m < k - 1 && StoresOwn(states[m], steps[m], pid) && Untouched(states, steps, m + 1, k - 1, pid) {
      if !Overwrites(states[k - 1], steps[k - 1], pid) && !Forgets(steps[k - 1], pid) {
        assert Untouched(states, steps, m + 1, k, pid);
      }
    }
  }

  /** A task about to write over a sibling has checked it, and done nothing since. */
  lemma {:induction false} WritingSinceCheck(states: seq<System>, steps: seq<Step>, k: nat, t: nat, task: Task) returns (c: nat)
    requires Run(states, steps) && k <= |steps| && t < |states[k].tasks| && states[k].tasks[t] == task && task.Writing?
    ensures c < k && steps[c] == Check(t, task.sibling) && !OwnRow(states[c].cache, task.sibling)
    ensures forall i :: c < i <= k ==> t < |states[i].tasks| && states[i].tasks[t] == task
    decreases k
  {
    hide After, Enabled, OwnRow;
    FirstResting(states, steps, t);
    StepIs(states, steps, k - 1);
    WritingStep(states[k - 1], steps[k - 1], t, task);
    if steps[k - 1] == Check(t, task.sibling) {
      c := k - 1;
    } else {
      c := WritingSinceCheck(states, steps, k - 1, t, task);
    }
  }

  lemma FirstResting(states: seq<System>, steps: seq<Step>, t: nat)
    requires Run(states, steps)
    ensures t < |states[0].tasks| ==> states[0].tasks[t].Resting?
  {
  }

  lemma WritingStep(s: System, step: Step, t: nat, task: Task)
    requires Enabled(s, step) && t < |After(s, step).tasks| && After(s, step).tasks[t] == task && task.Writing?
    ensures t < |s.tasks|
    ensures if step == Check(t, task.sibling) then !OwnRow(s.cache, task.sibling) else s.tasks[t] == task
  {
    hide OutcomeOf;
  }

  /** The write at step k takes an own row away. */
  ghost predicate LosesOwnRow(states: seq<System>, steps: seq<Step>, k: nat, pid: string) {
    k < |steps| && |states| == |steps| + 1 && Overwrites(states[k], steps[k], pid)
    && OwnRow(states[k].cache, pid) && !OwnRow(states[k + 1].cache, pid)
  }

  /**
   A spread row replaces a programme's own row if and only if, between the
   spreading task's check and its write, the programme's own answer was stored
   and has stood since. The check is unique: the goroutine does nothing else
   between it and the write.
   */
  lemma OwnRowLostIff(states: seq<System>, steps: seq<Step>, k: nat, pid: string) returns (c: nat)
    requires Run(states, steps) && k < |steps| && Overwrites(states[k], steps[k], pid)
    ensures c < k && steps[c] == Check(steps[k].t, pid)
    ensures forall i :: c < i <= k ==>
              steps[k].t < |states[i].tasks| && states[i].tasks[steps[k].t] == states[k].tasks[steps[k].t]
    ensures LosesOwnRow(states, steps, k, pid) <==> StoredSince(states, steps, c, k, pid)
  {
    hide After, Enabled, OwnRow, StoresOwn, StoredSince, Forgets;
    var t := steps[k].t;
    c := WritingSinceCheck(states, steps, k, t, states[k].tasks[t]);
    OwnRowSince(states, steps, c, k, pid);
    StepIs(states, steps, k);
    OverwriteTakes(states[k], steps[k], pid);
  }

  lemma OverwriteTakes(s: System, step: Step, pid: string)
    requires Enabled(s, step) && Overwrites(s, step, pid)
    ensures !OwnRow(After(s, step).cache, pid)
  {
  }

  /** The programme's own answer is stored between a task's check of it and that task's write. */
  ghost predicate StoredUnderCheck(states: seq<System>, steps: seq<Step>, c: nat, m: nat, k: nat, pid: string)
    requires |states| == |steps| + 1
  {
    && c < m < k < |steps| && Overwrites(states[k], steps[k], pid) && steps[c] == Check(steps[k].t, pid)
    && (forall i :: c < i <= k ==>
          steps[k].t < |states[i].tasks| && states[i].tasks[steps[k].t] == states[k].tasks[steps[k].t])
    && StoresOwn(states[m], steps[m], pid)
  }

  /** While the cache is not cleared of it, a programme loses its own row in a run exactly when its answer is stored under some task's check of it. */
  lemma OwnRowsLostIffStoredUnderCheck(states: seq<System>, steps: seq<Step>, pid: string)
    requires Run(states, steps) && forall i :: 0 <= i < |steps| ==> !Forgets(steps[i], pid)
    ensures (exists k: nat :: LosesOwnRow(states, steps, k, pid))
            <==> (exists c: nat, m: nat, k: nat :: StoredUnderCheck(states, steps, c, m, k, pid))
  {
    hide After, Enabled, OwnRow, StoresOwn, Forgets, LosesOwnRow, Overwrites;
    if k: nat :| LosesOwnRow(states, steps, k, pid) {
      LossIsStoredUnderCheck(states, steps, k, pid);
    }
    if c: nat, m: nat, k: nat :| StoredUnderCheck(states, steps, c, m, k, pid) {
      var j := FirstOverwrite(states, steps, m, k, pid);
      StoredIsLost(states, steps, m, j, pid);
    }
  }

  lemma LossIsStoredUnderCheck(states: seq<System>, steps: seq<Step>, k: nat, pid: string)
    requires Run(states, steps) && LosesOwnRow(states, steps, k, pid)
    ensures exists c: nat, m: nat :: StoredUnderCheck(states, steps, c, m, k, pid)
  {
    hide After, Enabled, OwnRow, Forgets;
    var c := OwnRowLostIff(states, steps, k, pid);
    var m :| c <= m < k && StoresOwn(states[m], steps[m], pid) && Untouched(states, steps, m + 1, k, pid);
    assert StoredUnderCheck(states, steps, c, m, k, pid);
  }

  /** The first overwrite after a store. */
  lemma {:induction false} FirstOverwrite(states: seq<System>, steps: seq<Step>, m: nat, k: nat, pid: string) returns (j: nat)
    requires m < k < |steps| && |states| == |steps| + 1 && Overwrites(states[k], steps[k], pid)
    requires forall i :: 0 <= i < |steps| ==> !Forgets(steps[i], pid)
    ensures m < j <= k && Overwrites(states[j], steps[j], pid) && Untouched(states, steps, m + 1, j, pid)
    decreases k
  {
    hide Overwrites, Forgets;
    if i: nat :| m < i < k && Overwrites(states[i], steps[i], pid) {
      j := FirstOverwrite(states, steps, m, i, pid);
    } else {
      j := k;
    }
  }

  lemma StoredIsLost(states: seq<System>, steps: seq<Step>, m: nat, j: nat, pid: string)
    requires Run(states, steps) && m < j < |steps| && StoresOwn(states[m], steps[m], pid)
    requires Overwrites(states[j], steps[j], pid) && Untouched(states, steps, m + 1, j, pid)
    ensures LosesOwnRow(states, steps, j, pid)
  {
    hide After, Enabled, OwnRow, StoresOwn, Forgets, Overwrites;
    StandsSince(states, steps, m, j, pid);
    StepIs(states, steps, j);
    OverwriteTakes(states[j], steps[j], pid);
  }

  lemma {:induction false} StandsSince(states: seq<System>, steps: seq<Step>, m: nat, j: nat, pid: string)
    requires Run(states, steps) && m < j <= |steps| && StoresOwn(states[m], steps[m], pid)
    requires Untouched(states, steps, m + 1, j, pid)
    ensures OwnRow(states[j].cache, pid)
    decreases j
  {
    hide After, Enabled, OwnRow, StoresOwn, Forgets, Overwrites;
    StepIs(states, steps, j - 1);
    OwnRowStep(states[j - 1], steps[j - 1], pid);
    if m + 1 < j {
      StandsSince(states, steps, m, j - 1, pid);
    }
  }

  // ---- a run that loses one ----

  /** BBC serves one stream of 540 lines, for which no FHD check applies. */
  function PlainAnswer(): Answer {
    Answer(Resolved(false), Video([VideoStream("https://host/master.m3u8", 540, 1500, "hls", "akamai")]),
           _ => MasterError, _ => MasterError, 0)
  }

  lemma PlainAnswerIsCacheable()
    ensures IsCacheable(OutcomeOf(PlainAnswer())) && OutcomeOf(PlainAnswer()).heights == [540]
  {
    var streams := PlainAnswer().selector.streams;
    var s := streams[0];
    assert forall x :: x in streams <==> x == s;
    assert Reported(streams) == {540};
    assert Descending([540]) && Members([540]) == {540};
    DescendingIsUnique(Listed({540}), [540]);
    assert !HasSuffix(s.supplier, "_live_uk");
  }

  function RaceSteps(): seq<Step> {
    [Ask(0, "a", PlainAnswer()), Store(0, true), Check(0, "b"), Ask(1, "b", PlainAnswer()), Store(1, false), Overwrite(0)]
  }

  ghost function RaceStates(): seq<System> {
    var h := [540];
    var one, both: Evidence := {("a", h)}, {("a", h), ("b", h)};
    var led: Cache := map["a" := Row(h, false)];
    [ System(map[], {}, [Resting, Resting]),
      System(map[], one, [Holding("a", h), Resting]),
      System(led, one, [Spreading("a", h), Resting]),
      System(led, one, [Writing("a", h, "b"), Resting]),
      System(led, both, [Writing("a", h, "b"), Holding("b", h)]),
      System(led["b" := Row(h, false)], both, [Writing("a", h, "b"), Resting]),
      System(led["b" := Row(h, true)], both, [Spreading("a", h), Resting]) ]
  }

  lemma RaceStep(i: nat)
    requires IsCacheable(OutcomeOf(PlainAnswer())) && OutcomeOf(PlainAnswer()).heights == [540]
    requires i < |RaceSteps()|
    ensures Enabled(RaceStates()[i], RaceSteps()[i])
    ensures RaceStates()[i + 1] == After(RaceStates()[i], RaceSteps()[i])
  {
    hide OutcomeOf, PlainAnswer;
    var s, t, next := RaceStates()[i], RaceSteps()[i], RaceStates()[i + 1];
    assert Enabled(s, t);
    assert After(s, t).tasks == next.tasks;
    assert After(s, t).evidence == next.evidence;
    assert After(s, t).cache == next.cache;
  }

  /**
   The check of a sibling and the write over it are two steps: the feed probes
   "a" and checks its sibling "b", an availability probe of "b" stores its own
   row, and the feed writes over it. Nothing false is reported, but the own row
   is lost.
   */
  lemma SpreadCanReplaceOwnRow()
    ensures exists states: seq<System>, steps: seq<Step>, k: nat, pid :: Run(states, steps) && LosesOwnRow(states, steps, k, pid)
  {
    hide OutcomeOf, Enabled, After, PlainAnswer;
    PlainAnswerIsCacheable();
    var states, steps := RaceStates(), RaceSteps();
    forall i | 0 <= i < |steps|
      ensures Enabled(states[i], steps[i]) && states[i + 1] == After(states[i], steps[i])
    {
      RaceStep(i);
    }
    assert Run(states, steps);
    assert LosesOwnRow(states, steps, 5, "b");
  }
}
