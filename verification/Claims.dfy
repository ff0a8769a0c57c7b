/**
 The claim protocol between the workers: internal/download/worker.go,
 processNext, claim and release. Admission, the listing of the queue, the
 claim and every store write of a worker are separate atomic steps, in any
 interleaving with each other and with the rest of the system.
 */
module Claims {
  import opened Downloads
  import opened Queue
  import opened Store

  /** Where a worker is in processNext. The move to history is an attempt's last store access: then it is archived. */
  datatype Phase =
    | Idle
    | Admitted
    | Scanning(rows: seq<Download>, next: nat)
    | Working(row: Download, archived: bool)

  datatype System = System(
    claimed: map<string, nat>,
    workers: seq<Phase>,
    downloads: Bucket,
    history: Bucket)

  datatype Step =
    | Admit(w: nat, limit: int)
    | List(w: nat, rows: seq<Download>)
    | Pass(w: nat)
    | GiveUp(w: nat)
    | Claim(w: nat, now: int)
    | Put(w: nat, row: Download)
    | Archive(w: nat)
    | Release(w: nat)
    | Others(downloads: Bucket, history: Bucket)

  predicate Claimable(row: Download, now: int) {
    row.status == Pending || (row.status == Failed && row.retryable && (row.retryAfter == 0 || now > row.retryAfter))
  }

  /** claim: refused when another worker holds the id. */
  function Claimed(claimed: map<string, nat>, id: string, w: nat): (map<string, nat>, bool) {
    if id in claimed then (claimed, false) else (claimed[id := w], true)
  }

  ghost predicate Enabled(s: System, t: Step) {
    match t
    case Others(_, _) => true
    case Admit(w, limit) => w < |s.workers| && s.workers[w].Idle? && |s.claimed| < limit
    case List(w, rows) => w < |s.workers| && s.workers[w].Admitted? && IsQueue(rows, s.downloads.Values)
    case Pass(w) => w < |s.workers| && s.workers[w].Scanning? && s.workers[w].next < |s.workers[w].rows|
    case GiveUp(w) => w < |s.workers| && s.workers[w].Scanning?
    case Claim(w, now) =>
      w < |s.workers| && s.workers[w].Scanning? && s.workers[w].next < |s.workers[w].rows|
      && Claimable(s.workers[w].rows[s.workers[w].next], now)
      && Claimed(s.claimed, s.workers[w].rows[s.workers[w].next].id, w).1
    case Put(w, row) =>
      w < |s.workers| && s.workers[w].Working? && !s.workers[w].archived && row.id == s.workers[w].row.id
    case Archive(w) => w < |s.workers| && s.workers[w].Working? && !s.workers[w].archived
    case Release(w) => w < |s.workers| && s.workers[w].Working?
  }

  /** What a step does. A worker claims any row of its listing, however old the listing is; release also ends a panic. */
  ghost function After(s: System, t: Step): System
    requires Enabled(s, t)
  {
    match t
    case Others(downloads, history) => s.(downloads := downloads, history := history)
    case Admit(w, _) => s.(workers := s.workers[w := Admitted])
    case List(w, rows) => s.(workers := s.workers[w := Scanning(rows, 0)])
    case Pass(w) => s.(workers := s.workers[w := Scanning(s.workers[w].rows, s.workers[w].next + 1)])
    case GiveUp(w) => s.(workers := s.workers[w := Idle])
    case Claim(w, _) =>
      var row := s.workers[w].rows[s.workers[w].next];
      s.(workers := s.workers[w := Working(row, false)], claimed := Claimed(s.claimed, row.id, w).0)
    case Put(w, row) => s.(workers := s.workers[w := Working(row, false)], downloads := s.downloads[row.id := row])
    case Archive(w) =>
      var row := s.workers[w].row;
      var moved := s.(workers := s.workers[w := Working(row, true)]);
      if row.id !in s.downloads then moved
      else moved.(downloads := s.downloads - {row.id}, history := s.history[row.id := s.downloads[row.id]])
    case Release(w) => s.(workers := s.workers[w := Idle], claimed := s.claimed - {s.workers[w].row.id})
  }

  ghost predicate Initial(s: System) {
    s.claimed == map[] && forall w :: 0 <= w < |s.workers| ==> s.workers[w].Idle?
  }

  ghost predicate Run(states: seq<System>, steps: seq<Step>) {
    && |states| == |steps| + 1
    && Initial(states[0])
    && forall i :: 0 <= i < |steps| ==> Enabled(states[i], steps[i]) && states[i + 1] == After(states[i], steps[i])
  }

  /** The claimed map holds exactly the ids being processed, each by the one worker it names. */
  ghost predicate Consistent(s: System) {
    Agree(s.claimed, s.workers)
  }

  ghost predicate Agree(claimed: map<string, nat>, workers: seq<Phase>) {
    && (forall id :: id in claimed ==>
          claimed[id] < |workers| && workers[claimed[id]].Working? && workers[claimed[id]].row.id == id)
    && (forall w :: 0 <= w < |workers| && workers[w].Working? ==>
          workers[w].row.id in claimed && claimed[workers[w].row.id] == w)
  }

  lemma QuietMove(claimed: map<string, nat>, workers: seq<Phase>, w: nat, phase: Phase)
    requires Agree(claimed, workers) && w < |workers| && !workers[w].Working? && !phase.Working?
    ensures Agree(claimed, workers[w := phase])
  {
  }

  lemma ClaimMove(claimed: map<string, nat>, workers: seq<Phase>, w: nat, row: Download)
    requires Agree(claimed, workers) && w < |workers| && !workers[w].Working? && row.id !in claimed
    ensures Agree(claimed[row.id := w], workers[w := Working(row, false)])
  {
  }

  lemma WriteMove(claimed: map<string, nat>, workers: seq<Phase>, w: nat, row: Download, archived: bool)
    requires Agree(claimed, workers) && w < |workers| && workers[w].Working? && workers[w].row.id == row.id
    ensures Agree(claimed, workers[w := Working(row, archived)])
  {
  }

  lemma ReleaseMove(claimed: map<string, nat>, workers: seq<Phase>, w: nat)
    requires Agree(claimed, workers) && w < |workers| && workers[w].Working?
    ensures Agree(claimed - {workers[w].row.id}, workers[w := Idle])
  {
  }

  lemma StepKeepsConsistent(s: System, t: Step)
    requires Consistent(s) && Enabled(s, t)
    ensures Consistent(After(s, t)) && |After(s, t).workers| == |s.workers|
  {
    hide IsQueue, Agree, Claimable;
    match t
    case Admit(w, _) => QuietMove(s.claimed, s.workers, w, Admitted);
    case List(w, rows) => QuietMove(s.claimed, s.workers, w, Scanning(rows, 0));
    case Pass(w) => QuietMove(s.claimed, s.workers, w, Scanning(s.workers[w].rows, s.workers[w].next + 1));
    case GiveUp(w) => QuietMove(s.claimed, s.workers, w, Idle);
    case Claim(w, _) => ClaimMove(s.claimed, s.workers, w, s.workers[w].rows[s.workers[w].next]);
    case Put(w, row) => WriteMove(s.claimed, s.workers, w, row, false);
    case Archive(w) => WriteMove(s.claimed, s.workers, w, s.workers[w].row, true);
    case Release(w) => ReleaseMove(s.claimed, s.workers, w);
    case _ =>
  }

  lemma {:induction false} EveryStateConsistent(states: seq<System>, steps: seq<Step>, n: nat)
    requires Run(states, steps) && n <= |steps|
    ensures Consistent(states[n]) && |states[n].workers| == |states[0].workers|
  {
    hide Consistent, After, Enabled;
    if n == 0 {
      InitialConsistent(states[0]);
    } else {
      EveryStateConsistent(states, steps, n - 1);
      StepKeepsConsistent(states[n - 1], steps[n - 1]);
    }
  }

  lemma InitialConsistent(s: System)
    requires Initial(s)
    ensures Consistent(s)
  {
  }

  /** In every reachable state no download is processed by two workers. */
  lemma ClaimsAreExclusive(states: seq<System>, steps: seq<Step>, n: nat, v: nat, w: nat)
    requires Run(states, steps) && n <= |steps|
    requires v < |states[n].workers| && w < |states[n].workers| && v != w
    requires states[n].workers[v].Working? && states[n].workers[w].Working?
    ensures states[n].workers[v].row.id != states[n].workers[w].row.id
  {
    hide After, Enabled;
    EveryStateConsistent(states, steps, n);
  }

  /**
   In every reachable state of any pool the claimed map has one entry per busy
   worker, so never more than there are workers and none when all are idle.
   */
  lemma ClaimsAreTheBusyWorkers(states: seq<System>, steps: seq<Step>, n: nat)
    requires Run(states, steps) && n <= |steps|
    ensures |states[n].claimed| == |Busy(states[n])| <= |states[0].workers|
    ensures (forall w :: 0 <= w < |states[n].workers| ==> !states[n].workers[w].Working?) <==> states[n].claimed == map[]
  {
    hide After, Enabled;
    EveryStateConsistent(states, steps, n);
    ClaimsCount(states[n]);
    BusyBound(states[n].workers, |states[n].workers|);
    if w :| 0 <= w < |states[n].workers| && states[n].workers[w].Working? {
      assert states[n].workers[w].row.id in states[n].claimed;
    }
    if id :| id in states[n].claimed {
      assert states[n].workers[states[n].claimed[id]].Working?;
    }
  }

  /** The busy ones among the first n workers. */
  ghost function BusyAmong(workers: seq<Phase>, n: nat): set<nat>
    requires n <= |workers|
  {
    set w | 0 <= w < n && workers[w].Working?
  }

  ghost function Busy(s: System): set<nat> {
    BusyAmong(s.workers, |s.workers|)
  }

  lemma ClaimsCount(s: System)
    requires Consistent(s)
    ensures |s.claimed| == |Busy(s)|
  {
    var ids := s.claimed.Keys;
    assert Busy(s) == set id | id in ids :: s.claimed[id];
    ImageSize(s, ids);
  }

  lemma {:induction false} ImageSize(s: System, ids: set<string>)
    requires Consistent(s) && ids <= s.claimed.Keys
    ensures |set id | id in ids :: s.claimed[id]| == |ids|
    decreases |ids|
  {
    if ids != {} {
      var x :| x in ids;
      var rest := ids - {x};
      ImageSize(s, rest);
      assert (set id | id in ids :: s.claimed[id]) == (set id | id in rest :: s.claimed[id]) + {s.claimed[x]};
    }
  }

  lemma {:induction false} BusyBound(workers: seq<Phase>, n: nat)
    requires n <= |workers|
    ensures |BusyAmong(workers, n)| <= n
  {
    if n > 0 {
      BusyBound(workers, n - 1);
      var last := if workers[n - 1].Working? then {n - 1} else {};
      assert BusyAmong(workers, n) == BusyAmong(workers, n - 1) + last;
    }
  }

  // ---- the lock ----

  /**
   Manager.claimed behind its lock. What each method does is the protocol's
   step of that name, in whatever state the rest of the system is.
   */
  class ClaimTable {
    var claimed: map<string, nat>
    /** The system the table is part of. */
    ghost var system: System

    ghost predicate Valid()
      reads this
    {
      Consistent(system) && system.claimed == claimed
    }

    constructor (ghost start: System)
      requires Initial(start)
      ensures Valid() && system == start
    {
      claimed := map[];
      system := start;
    }

    /** claimedLen against the limit: admission. */
    method Admit(w: nat, limit: int) returns (ok: bool)
      requires Valid() && w < |system.workers| && system.workers[w].Idle?
      modifies this`system
      ensures Valid()
      ensures ok <==> Enabled(old(system), Step.Admit(w, limit))
      ensures system == if ok then After(old(system), Step.Admit(w, limit)) else old(system)
    {
      hide Consistent;
      ok := |claimed| < limit;
      if ok {
        StepKeepsConsistent(system, Step.Admit(w, limit));
        system := After(system, Step.Admit(w, limit));
      }
    }

    /** claim, for the row a worker's scan has come to. */
    method Claim(w: nat, id: string, ghost now: int) returns (ok: bool)
      requires Valid() && w < |system.workers| && system.workers[w].Scanning?
      requires var p := system.workers[w]; p.next < |p.rows| && p.rows[p.next].id == id && Claimable(p.rows[p.next], now)
      modifies this
      ensures Valid()
      ensures ok <==> Enabled(old(system), Step.Claim(w, now))
      ensures system == if ok then After(old(system), Step.Claim(w, now)) else old(system)
    {
      hide Consistent, Claimable;
      if id in claimed {
        return false;
      }
      StepKeepsConsistent(system, Step.Claim(w, now));
      claimed := claimed[id := w];
      system := After(system, Step.Claim(w, now));
      return true;
    }

    /** release, deferred so that it also ends a panic. */
    method Release(w: nat, id: string)
      requires Valid() && w < |system.workers| && system.workers[w].Working? && system.workers[w].row.id == id
      modifies this
      ensures Valid() && Enabled(old(system), Step.Release(w)) && system == After(old(system), Step.Release(w))
    {
      hide Consistent;
      StepKeepsConsistent(system, Step.Release(w));
      claimed := claimed - {id};
      system := After(system, Step.Release(w));
    }

    /** Every other step of a worker or of the rest of the system leaves the table alone. */
    ghost method Elsewhere(t: Step)
      requires Valid() && Enabled(system, t) && !t.Claim? && !t.Release?
      modifies this`system
      ensures Valid() && system == After(old(system), t)
    {
      hide Consistent;
      StepKeepsConsistent(system, t);
      system := After(system, t);
    }
  }
}
