/**
 Which programme keeps which TheTVDB number: internal/newznab/tvdb.go, resolve.
 The outcome is stated for the set of programmes considered, so it cannot
 depend on the order of the list, on how often a programme is listed, or on
 the order in which a Go map of claims is visited.
 */
module Arbitration {
  import opened Text
  import opened Titles
  import opened TVDB

  /** One call of resolve: the list, the programmes, and the caller's two tests. */
  datatype Contest = Contest(
    idx: TVDBIndex,
    progs: set<Programme>,
    eligible: Programme -> bool,
    datable: Programme -> bool)

  type Number = (int, int)

  // ---- the declarative outcome ----

  ghost predicate Considered(c: Contest, p: Programme) {
    p in c.progs && c.eligible(p) && !IsDateLikeSubtitle(p.episode)
  }

  function Claimed(c: Contest, p: Programme): Option<TVDBMatch> {
    ClaimOf(c.idx, p, c.datable(p))
  }

  ghost predicate Claims(c: Contest, p: Programme, n: Number) {
    Considered(c, p) && Claimed(c, p).Some? && Claimed(c, p).value.Number() == n
  }

  function StrengthOf(c: Contest, p: Programme): Strength {
    match Claimed(c, p)
    case None => OFF_WINDOW
    case Some(m) => m.strength
  }

  ghost function Claimants(c: Contest, n: Number): set<Programme> {
    set p | p in c.progs && Claims(c, p, n)
  }

  /** Another version of a claimant that is itself there. */
  predicate VersionOfAnother(p: Programme, claimants: set<Programme>) {
    VersionBase(p.episode) != p.episode && exists q :: q in claimants && q.episode == VersionBase(p.episode)
  }

  ghost function Originals(claimants: set<Programme>): set<Programme> {
    set p | p in claimants && !VersionOfAnother(p, claimants)
  }

  ghost function Owners(rivals: set<Programme>, n: Number): set<Programme> {
    set p | p in rivals && GivenNumber(p) == Some(n)
  }

  predicate OnePID(ps: set<Programme>) {
    forall p, q :: p in ps && q in ps ==> p.pid == q.pid
  }

  ghost predicate OffWindowOnly(c: Contest, ps: set<Programme>) {
    forall p :: p in ps ==> StrengthOf(c, p) == OFF_WINDOW
  }

  /** The programmes left to argue over a number once versions have given way and an owner has been preferred. */
  ghost function Rivals(c: Contest, n: Number): set<Programme> {
    Preferred(c, Originals(Claimants(c, n)), n)
  }

  /** Whom the originals leave to argue: the owner alone when all matched outside the window, else all. */
  ghost function Preferred(c: Contest, ps: set<Programme>, n: Number): set<Programme> {
    var owners := Owners(ps, n);
    if OffWindowOnly(c, ps) && owners != {} && OnePID(owners) then owners else ps
  }

  /** p holds its own among the rivals. */
  ghost predicate Survives(c: Contest, p: Programme, rivals: set<Programme>) {
    || StrengthOf(c, p) == ON_TITLE
    || OnePID(rivals)
    || ((forall q :: q in rivals ==> StrengthOf(c, q) <= StrengthOf(c, p))
        && (forall q :: q in rivals && StrengthOf(c, q) == StrengthOf(c, p) ==> q.episode == p.episode))
  }

  /** p would keep number n if TheTVDB bears the show out. */
  ghost predicate Prevails(c: Contest, p: Programme, n: Number) {
    Claims(c, p, n) && p in Rivals(c, n) && Survives(c, p, Rivals(c, n))
  }

  ghost predicate PrevailsSomewhere(c: Contest, p: Programme) {
    Claimed(c, p).Some? && Prevails(c, p, Claimed(c, p).value.Number())
  }

  /** TheTVDB bears out the number p goes out with. */
  ghost predicate AtOwnNumber(c: Contest, p: Programme) {
    var given := GivenNumber(p);
    && given.Some?
    && if PrevailsSomewhere(c, p) then Claimed(c, p).value.Number() == given.value else BornOut(c.idx, p, given.value)
  }

  ghost predicate BearsOut(c: Contest, p: Programme) {
    Considered(c, p) && ((PrevailsSomewhere(c, p) && StrengthOf(c, p) > OFF_WINDOW) || AtOwnNumber(c, p))
  }

  ghost predicate ShowMatched(c: Contest) {
    exists p :: BearsOut(c, p)
  }

  /** The programmes that keep the number they claim. */
  ghost predicate Wins(c: Contest, p: Programme) {
    PrevailsSomewhere(c, p) && ShowMatched(c)
  }

  /** A programme of an assumed series under the label, with an episode at its own number. */
  ghost predicate CheckableUnder(c: Contest, p: Programme, name: string) {
    && Considered(c, p) && p.seriesAssumed && SeriesLabel(p.episode) == name
    && GivenOrZero(p) in c.idx.byNumber
  }

  function GivenOrZero(p: Programme): Number {
    match GivenNumber(p)
    case None => (0, 0)
    case Some(n) => n
  }

  ghost function CheckablePIDs(c: Contest, name: string): set<string> {
    set p | p in c.progs && CheckableUnder(c, p, name) :: p.pid
  }

  ghost function BornePIDs(c: Contest, name: string): set<string> {
    set p | p in c.progs && CheckableUnder(c, p, name) && AtOwnNumber(c, p) :: p.pid
  }

  ghost predicate LabelBorneOut(c: Contest, p: Programme) {
    var name := SeriesLabel(p.episode);
    && p.seriesAssumed && !p.episodeAssumed && !StoryPart(p.episode) && name != ""
    && |BornePIDs(c, name)| >= 3
    && 2 * |BornePIDs(c, name)| >= |CheckablePIDs(c, name)|
  }

  ghost predicate IsContradicted(c: Contest, p: Programme) {
    Considered(c, p) && !Wins(c, p) && !LabelBorneOut(c, p) && Contradicts(c.idx, p, ShowMatched(c))
  }

  // ---- what the outcome guarantees ----

  /** Winners and contradicted programmes are eligible programmes, none is both, and a winner has one number. */
  lemma OutcomeIsExclusive(c: Contest, p: Programme)
    ensures Wins(c, p) ==> p in c.progs && c.eligible(p) && Claimed(c, p).Some?
    ensures IsContradicted(c, p) ==> p in c.progs && c.eligible(p)
    ensures !(Wins(c, p) && IsContradicted(c, p))
    ensures forall n, m :: Prevails(c, p, n) && Prevails(c, p, m) ==> n == m
  {
  }

  /**
   When two winners of one number are different programmes, each matched at
   least as strongly as every rival for it, and below a full title match they
   share one subtitle.
   */
  lemma WinnersOfOneNumber(c: Contest, p: Programme, q: Programme, n: Number)
    requires Wins(c, p) && Wins(c, q) && Claims(c, p, n) && Claims(c, q, n) && p.pid != q.pid
    ensures forall r :: r in Rivals(c, n) ==> StrengthOf(c, r) <= StrengthOf(c, p)
    ensures StrengthOf(c, p) == StrengthOf(c, q)
    ensures StrengthOf(c, p) < ON_TITLE ==> p.episode == q.episode
  {
    assert p in Rivals(c, n) && q in Rivals(c, n);
    assert !OnePID(Rivals(c, n));
  }

  /** The version filter never empties a group: a claimant with the shortest subtitle is no version of another. */
  lemma OriginalsRemain(claimants: set<Programme>)
    requires claimants != {}
    ensures Originals(claimants) != {}
  {
    var p := ShortestSubtitle(claimants);
    assert p in Originals(claimants);
  }

  lemma ShortestSubtitle(claimants: set<Programme>) returns (p: Programme)
    requires claimants != {}
    ensures p in claimants && forall q :: q in claimants ==> |p.episode| <= |q.episode|
  {
    p :| p in claimants;
    if claimants != {p} {
      assert claimants == {p} + (claimants - {p});
      var q := ShortestSubtitle(claimants - {p});
      if |q.episode| < |p.episode| {
        p := q;
      }
    }
  }

  /** Every claimed number has a rival, and a rival claims it. */
  lemma RivalsRemain(c: Contest, n: Number)
    requires Claimants(c, n) != {}
    ensures Rivals(c, n) != {} && Rivals(c, n) <= Claimants(c, n)
  {
    OriginalsRemain(Claimants(c, n));
  }

  /** A single programme claiming a number, however often it is listed and in however many versions, keeps it. */
  lemma SoleClaimantPrevails(c: Contest, n: Number)
    requires Claimants(c, n) != {} && OnePID(Claimants(c, n))
    ensures exists p :: Prevails(c, p, n)
  {
    RivalsRemain(c, n);
    var p :| p in Rivals(c, n);
    assert Prevails(c, p, n);
  }

  /** Nothing is numbered unless the list bears out something of the show: a number won within the window, or a programme's own number. */
  lemma NothingWonUnlessBorneOut(c: Contest, p: Programme)
    requires Wins(c, p)
    ensures exists q :: Considered(c, q) && ((Wins(c, q) && StrengthOf(c, q) > OFF_WINDOW) || AtOwnNumber(c, q))
  {
    hide Prevails, Claimed, AtOwnNumber;
    var q :| BearsOut(c, q);
    assert Considered(c, q) && ((Wins(c, q) && StrengthOf(c, q) > OFF_WINDOW) || AtOwnNumber(c, q));
  }

  /** With nothing borne out, only numbers matched outside the window were ever claimed with success. */
  lemma UnmatchedShowOnlyOffWindow(c: Contest, p: Programme)
    requires PrevailsSomewhere(c, p) && !ShowMatched(c)
    ensures StrengthOf(c, p) == OFF_WINDOW && GivenNumber(p) != Some(Claimed(c, p).value.Number())
  {
    assert !BearsOut(c, p);
  }

  // ---- the algorithm ----

  /** tvdbClaim: a programme, by its place in the list, and the episode it claims. */
  datatype TVDBClaim = TVDBClaim(ref: nat, found: TVDBMatch)

  ghost function Values(progs: seq<Programme>): set<Programme> {
    set p | p in progs
  }

  ghost function ContestOf(idx: TVDBIndex, progs: seq<Programme>, eligible: Programme -> bool,
                           datable: Programme -> bool): Contest
  {
    Contest(idx, Values(progs), eligible, datable)
  }

  predicate DistinctRefs(cs: seq<TVDBClaim>) {
    forall i, j :: 0 <= i < j < |cs| ==> cs[i].ref != cs[j].ref
  }

  predicate InRange(progs: seq<Programme>, cs: seq<TVDBClaim>) {
    forall k :: k in cs ==> k.ref < |progs|
  }

  /** The programmes a list of claims is about. */
  ghost function ProgsOf(progs: seq<Programme>, cs: seq<TVDBClaim>): set<Programme>
    requires InRange(progs, cs)
  {
    set k | k in cs :: progs[k.ref]
  }

  /** Every claim is the one its programme makes on its own. */
  ghost predicate Genuine(c: Contest, progs: seq<Programme>, cs: seq<TVDBClaim>) {
    InRange(progs, cs) && forall k :: k in cs ==> Claimed(c, progs[k.ref]) == Some(k.found)
  }

  lemma DistinctExtended(cs: seq<TVDBClaim>, kept: seq<TVDBClaim>, i: nat)
    requires i < |cs| && DistinctRefs(cs) && DistinctRefs(kept)
    requires forall k :: k in kept ==> k in cs[..i]
    ensures DistinctRefs(kept + [cs[i]])
  {
    forall j | 0 <= j < |kept|
      ensures kept[j].ref != cs[i].ref
    {
      assert kept[j] in cs[..i];
    }
  }

  lemma AtMostOne<T>(s: set<T>)
    ensures |s| <= 1 <==> forall x, y :: x in s && y in s ==> x == y
  {
    if s != {} {
      var x :| x in s;
      assert s == {x} + (s - {x});
      if |s| > 1 {
        var y :| y in s - {x};
      }
    }
  }

  /** The claims no other claimed version displaces. */
  method KeepOriginals(progs: seq<Programme>, cs: seq<TVDBClaim>) returns (kept: seq<TVDBClaim>)
    requires InRange(progs, cs) && DistinctRefs(cs)
    ensures forall k :: k in kept <==> k in cs && !VersionOfAnother(progs[k.ref], ProgsOf(progs, cs))
    ensures DistinctRefs(kept) && InRange(progs, kept)
    ensures ProgsOf(progs, kept) == Originals(ProgsOf(progs, cs))
  {
    var claimed: set<string> := {};
    for i := 0 to |cs|
      invariant claimed == set k | k in cs[..i] :: progs[k.ref].episode
    {
      claimed := claimed + {progs[cs[i].ref].episode};
    }
    assert cs[..|cs|] == cs;
    kept := [];
    for i := 0 to |cs|
      invariant forall k :: k in kept <==> k in cs[..i] && !VersionOfAnother(progs[k.ref], ProgsOf(progs, cs))
      invariant DistinctRefs(kept)
    {
      var p := progs[cs[i].ref];
      var base := VersionBase(p.episode);
      assert base in claimed <==> exists q :: q in ProgsOf(progs, cs) && q.episode == base;
      if !(base != p.episode && base in claimed) {
        DistinctExtended(cs, kept, i);
        kept := kept + [cs[i]];
      }
    }
  }

  /** The claimants that go out with the claimed number anyway, their PIDs, and whether no claim is within the window. */
  method FindOwners(progs: seq<Programme>, n: Number, cs: seq<TVDBClaim>)
    returns (offWindow: bool, own: seq<TVDBClaim>, pids: set<string>)
    requires InRange(progs, cs) && DistinctRefs(cs)
    requires forall k :: k in cs ==> k.found.Number() == n
    ensures offWindow <==> forall k :: k in cs ==> k.found.strength == OFF_WINDOW
    ensures forall k :: k in own <==> k in cs && GivenNumber(progs[k.ref]) == Some(n)
    ensures pids == set k | k in own :: progs[k.ref].pid
    ensures DistinctRefs(own)
  {
    hide GivenNumber;
    offWindow, own, pids := true, [], {};
    for i := 0 to |cs|
      invariant offWindow <==> forall k :: k in cs[..i] ==> k.found.strength == OFF_WINDOW
      invariant forall k :: k in own <==> k in cs[..i] && GivenNumber(progs[k.ref]) == Some(n)
      invariant pids == set k | k in own :: progs[k.ref].pid
      invariant DistinctRefs(own)
    {
      offWindow := offWindow && cs[i].found.strength == OFF_WINDOW;
      if GivenNumber(progs[cs[i].ref]) == Some(cs[i].found.Number()) {
        DistinctExtended(cs, own, i);
        own := own + [cs[i]];
        pids := pids + {progs[cs[i].ref].pid};
      }
    }
    assert cs[..|cs|] == cs;
  }

  /** Among claims matched outside the window only, the one programme already at the number keeps it. */
  method PreferOwner(ghost c: Contest, progs: seq<Programme>, n: Number, cs: seq<TVDBClaim>)
    returns (left: seq<TVDBClaim>)
    requires Genuine(c, progs, cs) && DistinctRefs(cs)
    requires forall k :: k in cs ==> k.found.Number() == n
    ensures DistinctRefs(left) && InRange(progs, left)
    ensures forall k :: k in left <==> k in cs && progs[k.ref] in Preferred(c, ProgsOf(progs, cs), n)
    ensures ProgsOf(progs, left) == Preferred(c, ProgsOf(progs, cs), n)
  {
    hide GivenNumber, Claimed;
    left := cs;
    if |cs| <= 1 {
      LoneClaim(progs, n, cs);
      return;
    }
    var offWindow, own, pids := FindOwners(progs, n, cs);
    OwnPIDs(progs, n, cs, own);
    AtMostOne(pids);
    OffWindowClaims(c, progs, cs);
    if offWindow && |pids| == 1 {
      left := own;
    }
  }

  lemma OffWindowClaims(c: Contest, progs: seq<Programme>, cs: seq<TVDBClaim>)
    requires Genuine(c, progs, cs)
    ensures OffWindowOnly(c, ProgsOf(progs, cs)) <==> forall k :: k in cs ==> k.found.strength == OFF_WINDOW
  {
    hide Claimed;
    forall k | k in cs
      ensures progs[k.ref] in ProgsOf(progs, cs) && StrengthOf(c, progs[k.ref]) == k.found.strength
    {
    }
  }

  /** A single claim is its number's own rival, owner or not. */
  lemma LoneClaim(progs: seq<Programme>, n: Number, cs: seq<TVDBClaim>)
    requires InRange(progs, cs) && |cs| <= 1
    ensures var ps := ProgsOf(progs, cs); Owners(ps, n) != {} ==> Owners(ps, n) == ps
  {
    if |cs| == 1 {
      assert ProgsOf(progs, cs) == {progs[cs[0].ref]};
    }
  }

  lemma OwnPIDs(progs: seq<Programme>, n: Number, cs: seq<TVDBClaim>, own: seq<TVDBClaim>)
    requires InRange(progs, cs)
    requires forall k :: k in own <==> k in cs && GivenNumber(progs[k.ref]) == Some(n)
    ensures InRange(progs, own) && ProgsOf(progs, own) == Owners(ProgsOf(progs, cs), n)
    ensures var pids := set k | k in own :: progs[k.ref].pid;
            (pids == {} <==> ProgsOf(progs, own) == {})
            && ((forall x, y :: x in pids && y in pids ==> x == y) <==> OnePID(ProgsOf(progs, own)))
  {
    hide GivenNumber;
    var pids := set k | k in own :: progs[k.ref].pid;
    forall k | k in own
      ensures progs[k.ref].pid in pids && progs[k.ref] in ProgsOf(progs, own)
    {
    }
  }

  ghost function SubtitlesAt(progs: seq<Programme>, cs: seq<TVDBClaim>, strength: Strength): set<string>
    requires InRange(progs, cs)
  {
    set k | k in cs && k.found.strength == strength :: progs[k.ref].episode
  }

  ghost function PIDsOf(progs: seq<Programme>, cs: seq<TVDBClaim>): set<string>
    requires InRange(progs, cs)
  {
    set k | k in cs :: progs[k.ref].pid
  }

  predicate StrongestOf(cs: seq<TVDBClaim>, best: Strength) {
    && (forall k :: k in cs ==> k.found.strength <= best)
    && (cs == [] ==> best == OFF_WINDOW)
    && (cs != [] ==> exists k :: k in cs && k.found.strength == best)
  }

  /** The counts of resolve's last group loop. */
  method CountRivals(progs: seq<Programme>, cs: seq<TVDBClaim>)
    returns (pids: set<string>, subtitles: map<Strength, set<string>>, best: Strength)
    requires InRange(progs, cs)
    ensures pids == PIDsOf(progs, cs) && StrongestOf(cs, best)
    ensures forall k :: k in cs ==> k.found.strength in subtitles
    ensures forall s :: s in subtitles ==> subtitles[s] == SubtitlesAt(progs, cs, s)
  {
    pids, subtitles, best := {}, map[], OFF_WINDOW;
    for i := 0 to |cs|
      invariant pids == PIDsOf(progs, cs[..i]) && StrongestOf(cs[..i], best)
      invariant forall k :: k in cs[..i] ==> k.found.strength in subtitles
      invariant forall s :: s in subtitles ==> subtitles[s] == SubtitlesAt(progs, cs[..i], s)
    {
      var p, s := progs[cs[i].ref], cs[i].found.strength;
      assert cs[..i + 1] == cs[..i] + [cs[i]];
      pids := pids + {p.pid};
      subtitles := subtitles[s := (if s in subtitles then subtitles[s] else {}) + {p.episode}];
      best := if s > best then s else best;
    }
    assert cs[..|cs|] == cs;
  }

  /** What the counts say of one claim. */
  lemma SurvivesByCounts(c: Contest, progs: seq<Programme>, cs: seq<TVDBClaim>, best: Strength, k: TVDBClaim)
    requires Genuine(c, progs, cs) && StrongestOf(cs, best) && k in cs
    ensures Survives(c, progs[k.ref], ProgsOf(progs, cs)) <==>
            !(k.found.strength < ON_TITLE && |PIDsOf(progs, cs)| > 1
              && (k.found.strength < best || |SubtitlesAt(progs, cs, k.found.strength)| > 1))
  {
    hide Claimed, OnePID, PIDsOf, ProgsOf, SubtitlesAt, StrongestOf;
    OnePIDByCount(progs, cs);
    TopByCounts(c, progs, cs, best, k);
  }

  lemma OnePIDByCount(progs: seq<Programme>, cs: seq<TVDBClaim>)
    requires InRange(progs, cs)
    ensures OnePID(ProgsOf(progs, cs)) <==> |PIDsOf(progs, cs)| <= 1
  {
    AtMostOne(PIDsOf(progs, cs));
    forall j | j in cs
      ensures progs[j.ref] in ProgsOf(progs, cs) && progs[j.ref].pid in PIDsOf(progs, cs)
    {
    }
  }

  lemma TopByCounts(c: Contest, progs: seq<Programme>, cs: seq<TVDBClaim>, best: Strength, k: TVDBClaim)
    requires Genuine(c, progs, cs) && StrongestOf(cs, best) && k in cs
    ensures (forall q :: q in ProgsOf(progs, cs) ==> StrengthOf(c, q) <= k.found.strength) <==> k.found.strength >= best
    ensures (forall q :: q in ProgsOf(progs, cs) && StrengthOf(c, q) == k.found.strength ==> q.episode == progs[k.ref].episode)
            <==> |SubtitlesAt(progs, cs, k.found.strength)| <= 1
  {
    hide Claimed;
    var ps, subtitles := ProgsOf(progs, cs), SubtitlesAt(progs, cs, k.found.strength);
    AtMostOne(subtitles);
    forall j | j in cs
      ensures progs[j.ref] in ps && StrengthOf(c, progs[j.ref]) == j.found.strength
      ensures j.found.strength == k.found.strength ==> progs[j.ref].episode in subtitles
    {
    }
  }

  method Survivors(ghost c: Contest, progs: seq<Programme>, cs: seq<TVDBClaim>) returns (won: seq<TVDBClaim>)
    requires Genuine(c, progs, cs) && DistinctRefs(cs)
    ensures DistinctRefs(won)
    ensures forall k :: k in won <==> k in cs && Survives(c, progs[k.ref], ProgsOf(progs, cs))
  {
    hide Claimed, Survives;
    var pids, subtitles, best := CountRivals(progs, cs);
    won := [];
    for i := 0 to |cs|
      invariant DistinctRefs(won)
      invariant forall k :: k in won <==> k in cs[..i] && Survives(c, progs[k.ref], ProgsOf(progs, cs))
    {
      var k := cs[i];
      SurvivesByCounts(c, progs, cs, best, k);
      if !(k.found.strength < ON_TITLE && |pids| > 1 && (k.found.strength < best || |subtitles[k.found.strength]| > 1)) {
        DistinctExtended(cs, won, i);
        won := won + [k];
      }
    }
    assert cs[..|cs|] == cs;
  }

  /** The claims on one number that keep it: the body of resolve's loop over the claims map. */
  method Arbitrate(ghost c: Contest, progs: seq<Programme>, n: Number, cs: seq<TVDBClaim>) returns (won: seq<TVDBClaim>)
    requires Genuine(c, progs, cs) && DistinctRefs(cs)
    requires forall k :: k in cs ==> k.found.Number() == n
    requires ProgsOf(progs, cs) == Claimants(c, n)
    ensures DistinctRefs(won)
    ensures forall k :: k in won <==> k in cs && Prevails(c, progs[k.ref], n)
  {
    hide Claimed, Survives, Considered, Preferred;
    var kept := KeepOriginals(progs, cs);
    var left := PreferOwner(c, progs, n, kept);
    won := Survivors(c, progs, left);
    assert ProgsOf(progs, left) == Rivals(c, n);
    RivalsAreOriginals(c, n);
    forall k | k in cs
      ensures progs[k.ref] in Claimants(c, n)
    {
      assert progs[k.ref] in ProgsOf(progs, cs);
    }
  }

  lemma RivalsAreOriginals(c: Contest, n: Number)
    ensures Rivals(c, n) <= Originals(Claimants(c, n)) <= Claimants(c, n)
  {
  }

  function ClaimsAt(claims: map<Number, seq<TVDBClaim>>, n: Number): seq<TVDBClaim> {
    if n in claims then claims[n] else []
  }

  /** A list holds the claims of the first i programmes on a number. */
  ghost predicate GatheredFor(c: Contest, progs: seq<Programme>, i: nat, cs: seq<TVDBClaim>, n: Number) {
    && i <= |progs|
    && DistinctRefs(cs)
    && (forall k :: k in cs <==> k.ref < i && Claims(c, progs[k.ref], n) && Claimed(c, progs[k.ref]) == Some(k.found))
  }

  ghost predicate Gathered(c: Contest, progs: seq<Programme>, i: nat, claims: map<Number, seq<TVDBClaim>>) {
    forall n :: GatheredFor(c, progs, i, ClaimsAt(claims, n), n)
  }

  lemma GatherFor(c: Contest, progs: seq<Programme>, i: nat, cs: seq<TVDBClaim>, n: Number)
    requires i < |progs| && GatheredFor(c, progs, i, cs, n)
    ensures !Claims(c, progs[i], n) ==> GatheredFor(c, progs, i + 1, cs, n)
    ensures Claims(c, progs[i], n)
            ==> GatheredFor(c, progs, i + 1, cs + [TVDBClaim(i, Claimed(c, progs[i]).value)], n)
  {
    hide Claimed, Considered;
    forall j | 0 <= j < |cs|
      ensures cs[j].ref < i
    {
      assert cs[j] in cs;
    }
  }

  lemma GatherOne(c: Contest, progs: seq<Programme>, i: nat, claims: map<Number, seq<TVDBClaim>>)
    requires i < |progs| && Gathered(c, progs, i, claims)
    ensures !(Considered(c, progs[i]) && Claimed(c, progs[i]).Some?) ==> Gathered(c, progs, i + 1, claims)
    ensures Considered(c, progs[i]) && Claimed(c, progs[i]).Some? ==>
              var m := Claimed(c, progs[i]).value;
              Gathered(c, progs, i + 1, claims[m.Number() := ClaimsAt(claims, m.Number()) + [TVDBClaim(i, m)]])
  {
    hide Claimed, Considered, GatheredFor;
    var claiming := Considered(c, progs[i]) && Claimed(c, progs[i]).Some?;
    var after := if claiming then
      var m := Claimed(c, progs[i]).value;
      claims[m.Number() := ClaimsAt(claims, m.Number()) + [TVDBClaim(i, m)]]
    else claims;
    forall n
      ensures GatheredFor(c, progs, i + 1, ClaimsAt(after, n), n)
    {
      GatherFor(c, progs, i, ClaimsAt(claims, n), n);
      assert Claims(c, progs[i], n) <==> claiming && Claimed(c, progs[i]).value.Number() == n;
    }
  }

  /** The first loop of resolve. */
  method GatherClaims(c: Contest, progs: seq<Programme>)
    returns (claims: map<Number, seq<TVDBClaim>>, considered: seq<nat>)
    requires c.progs == Values(progs)
    ensures Gathered(c, progs, |progs|, claims)
    ensures forall i: nat :: i in considered <==> i < |progs| && Considered(c, progs[i])
    ensures forall i, j :: 0 <= i < j < |considered| ==> considered[i] < considered[j]
  {
    hide Gathered, Considered, ClaimOf, IsDateLikeSubtitle;
    claims, considered := map[], [];
    NothingGathered(c, progs);
    for i := 0 to |progs|
      invariant Gathered(c, progs, i, claims)
      invariant forall j: nat :: j in considered <==> j < i && Considered(c, progs[j])
      invariant forall j, k :: 0 <= j < k < |considered| ==> considered[j] < considered[k]
    {
      var p := progs[i];
      GatherOne(c, progs, i, claims);
      ConsideredIs(c, p);
      if c.eligible(p) && !IsDateLikeSubtitle(p.episode) {
        forall j | 0 <= j < |considered|
          ensures considered[j] < i
        {
          assert considered[j] in considered;
        }
        considered := considered + [i];
        var m := Claim(c.idx, p, c.datable(p));
        if m.Some? {
          var n := m.value.Number();
          claims := claims[n := ClaimsAt(claims, n) + [TVDBClaim(i, m.value)]];
        }
      }
    }
  }

  lemma ConsideredIs(c: Contest, p: Programme)
    requires p in c.progs
    ensures Considered(c, p) <==> c.eligible(p) && !IsDateLikeSubtitle(p.episode)
  {
  }

  lemma NothingGathered(c: Contest, progs: seq<Programme>)
    ensures Gathered(c, progs, 0, map[])
  {
  }

  lemma GatheredNumber(c: Contest, progs: seq<Programme>, claims: map<Number, seq<TVDBClaim>>, n: Number)
    requires c.progs == Values(progs) && Gathered(c, progs, |progs|, claims)
    ensures Genuine(c, progs, ClaimsAt(claims, n)) && DistinctRefs(ClaimsAt(claims, n))
    ensures forall k :: k in ClaimsAt(claims, n) ==> k.found.Number() == n
    ensures ProgsOf(progs, ClaimsAt(claims, n)) == Claimants(c, n)
  {
    hide Claimed, Considered;
    var cs := ClaimsAt(claims, n);
    assert GatheredFor(c, progs, |progs|, cs, n);
    forall p | p in Claimants(c, n)
      ensures p in ProgsOf(progs, cs)
    {
      var i :| 0 <= i < |progs| && progs[i] == p;
      assert TVDBClaim(i, Claimed(c, p).value) in cs;
    }
  }

  /** The claims that win their number, over every order in which the claims map may be visited. */
  method ArbitrateAll(c: Contest, progs: seq<Programme>, claims: map<Number, seq<TVDBClaim>>)
    returns (won: seq<TVDBClaim>)
    requires c.progs == Values(progs) && Gathered(c, progs, |progs|, claims)
    ensures DistinctRefs(won)
    ensures forall k :: k in won <==>
              k.ref < |progs| && Claimed(c, progs[k.ref]) == Some(k.found) && PrevailsSomewhere(c, progs[k.ref])
  {
    hide Claimed, Considered, Rivals, Survives;
    won := [];
    var left := claims.Keys;
    while left != {}
      invariant left <= claims.Keys
      invariant DistinctRefs(won)
      invariant forall k :: k in won <==>
                  && k.ref < |progs| && Claimed(c, progs[k.ref]) == Some(k.found)
                  && k.found.Number() in claims && k.found.Number() !in left
                  && Prevails(c, progs[k.ref], k.found.Number())
      decreases |left|
    {
      var n :| n in left;
      GatheredNumber(c, progs, claims, n);
      var more := Arbitrate(c, progs, n, claims[n]);
      assert claims[n] == ClaimsAt(claims, n);
      won := won + more;
      left := left - {n};
    }
    forall k: TVDBClaim | k.ref < |progs| && Claimed(c, progs[k.ref]) == Some(k.found) && PrevailsSomewhere(c, progs[k.ref])
      ensures k.found.Number() in claims
    {
      assert k in ClaimsAt(claims, k.found.Number());
    }
  }

  /** labelPIDs. */
  datatype LabelPIDs = LabelPIDs(borne: set<string>, checkable: set<string>)

  function PIDsUnder(labels: map<string, LabelPIDs>, name: string): LabelPIDs {
    if name in labels then labels[name] else LabelPIDs({}, {})
  }

  /** The labels map after a prefix of the considered programmes. */
  ghost predicate Labelled(c: Contest, progs: seq<Programme>, seen: seq<nat>, labels: map<string, LabelPIDs>)
    requires forall i :: i in seen ==> i < |progs|
  {
    forall name :: PIDsUnder(labels, name) == LabelPIDs(
      set i | i in seen && name != "" && CheckableUnder(c, progs[i], name) && AtOwnNumber(c, progs[i]) :: progs[i].pid,
      set i | i in seen && name != "" && CheckableUnder(c, progs[i], name) :: progs[i].pid)
  }

  predicate AtOwnNumberBy(idx: TVDBIndex, p: Programme, won: Option<TVDBMatch>) {
    var given := GivenNumber(p);
    given.Some? && if won.Some? then won.value.Number() == given.value else BornOut(idx, p, given.value)
  }

  /** atOwnNumber, over what won before the show is judged. */
  lemma AtOwnNumberIs(c: Contest, p: Programme)
    ensures AtOwnNumber(c, p) <==> AtOwnNumberBy(c.idx, p, if PrevailsSomewhere(c, p) then Claimed(c, p) else None)
  {
    hide GivenNumber, BornOut, Claimed, Prevails;
  }

  lemma LabelOne(c: Contest, progs: seq<Programme>, seen: seq<nat>, labels: map<string, LabelPIDs>, i: nat)
    requires forall j :: j in seen ==> j < |progs|
    requires i < |progs| && Considered(c, progs[i]) && Labelled(c, progs, seen, labels)
    ensures var name, pids := SeriesLabel(progs[i].episode), PIDsUnder(labels, SeriesLabel(progs[i].episode));
            Labelled(c, progs, seen + [i],
                     if name != "" && CheckableUnder(c, progs[i], name) then
                       labels[name := LabelPIDs(
                         if AtOwnNumber(c, progs[i]) then pids.borne + {progs[i].pid} else pids.borne,
                         pids.checkable + {progs[i].pid})]
                     else labels)
  {
    hide Considered, AtOwnNumber, SeriesLabel, GivenNumber, Claimed;
    var own := SeriesLabel(progs[i].episode);
    var pids := PIDsUnder(labels, own);
    var after := if own != "" && CheckableUnder(c, progs[i], own) then
      labels[own := LabelPIDs(
        if AtOwnNumber(c, progs[i]) then pids.borne + {progs[i].pid} else pids.borne,
        pids.checkable + {progs[i].pid})]
    else labels;
    forall name
      ensures PIDsUnder(after, name) == LabelPIDs(
          set j | j in seen + [i] && name != "" && CheckableUnder(c, progs[j], name) && AtOwnNumber(c, progs[j]) :: progs[j].pid,
          set j | j in seen + [i] && name != "" && CheckableUnder(c, progs[j], name) :: progs[j].pid)
    {
      var had := PIDsUnder(labels, name);
      assert had.borne == set j | j in seen && name != "" && CheckableUnder(c, progs[j], name) && AtOwnNumber(c, progs[j]) :: progs[j].pid;
      assert had.checkable == set j | j in seen && name != "" && CheckableUnder(c, progs[j], name) :: progs[j].pid;
    }
  }

  /** Whether TheTVDB bears the show out, and the PIDs under each label: resolve's loop over the considered programmes. */
  method JudgeShow(c: Contest, progs: seq<Programme>, considered: seq<nat>, won: seq<TVDBClaim>)
    returns (showMatched: bool, labels: map<string, LabelPIDs>)
    requires c.progs == Values(progs) && DistinctRefs(won)
    requires forall i: nat :: i in considered <==> i < |progs| && Considered(c, progs[i])
    requires forall k :: k in won <==>
               k.ref < |progs| && Claimed(c, progs[k.ref]) == Some(k.found) && PrevailsSomewhere(c, progs[k.ref])
    ensures showMatched <==> ShowMatched(c)
    ensures Labelled(c, progs, considered, labels)
  {
    hide Claimed, Prevails, Considered, AtOwnNumberBy, Labelled, GivenNumber, SeriesLabel, AtOwnNumber;
    var wonAt: map<nat, TVDBMatch> := map[];
    showMatched := false;
    for i := 0 to |won|
      invariant forall r :: r in wonAt <==> exists k :: k in won[..i] && k.ref == r
      invariant forall r :: r in wonAt ==> TVDBClaim(r, wonAt[r]) in won
      invariant showMatched <==> exists k :: k in won[..i] && k.found.strength > OFF_WINDOW
    {
      wonAt := wonAt[won[i].ref := won[i].found];
      showMatched := showMatched || won[i].found.strength > OFF_WINDOW;
    }
    assert won[..|won|] == won;
    ghost var byClaim := showMatched;
    labels := map[];
    NothingLabelled(c, progs);
    for i := 0 to |considered|
      invariant forall j :: j in considered[..i] ==> j in considered
      invariant Labelled(c, progs, considered[..i], labels)
      invariant showMatched <==> byClaim || exists j :: j in considered[..i] && AtOwnNumber(c, progs[j])
    {
      var r := considered[i];
      assert r in considered;
      var p := progs[r];
      AtOwnNumberIs(c, p);
      WonAtIs(c, progs, won, wonAt, r);
      var own := AtOwnNumberBy(c.idx, p, if r in wonAt then Some(wonAt[r]) else None);
      assert considered[..i + 1] == considered[..i] + [r];
      showMatched := showMatched || own;
      LabelOne(c, progs, considered[..i], labels, r);
      var name := SeriesLabel(p.episode);
      CheckableIs(c, p);
      if name != "" && p.seriesAssumed && GivenOrZero(p) in c.idx.byNumber {
        var pids := PIDsUnder(labels, name);
        labels := labels[name := LabelPIDs(if own then pids.borne + {p.pid} else pids.borne, pids.checkable + {p.pid})];
      }
    }
    assert considered[..|considered|] == considered;
    ShowMatchedIs(c, progs, considered, won);
  }

  lemma CheckableIs(c: Contest, p: Programme)
    requires Considered(c, p)
    ensures CheckableUnder(c, p, SeriesLabel(p.episode)) <==> p.seriesAssumed && GivenOrZero(p) in c.idx.byNumber
  {
  }

  lemma NothingLabelled(c: Contest, progs: seq<Programme>)
    ensures Labelled(c, progs, [], map[])
  {
  }

  lemma WonAtIs(c: Contest, progs: seq<Programme>, won: seq<TVDBClaim>, wonAt: map<nat, TVDBMatch>, r: nat)
    requires r < |progs|
    requires forall r :: r in wonAt <==> exists k :: k in won && k.ref == r
    requires forall r :: r in wonAt ==> TVDBClaim(r, wonAt[r]) in won
    requires forall k :: k in won <==>
               k.ref < |progs| && Claimed(c, progs[k.ref]) == Some(k.found) && PrevailsSomewhere(c, progs[k.ref])
    ensures (if r in wonAt then Some(wonAt[r]) else None)
            == if PrevailsSomewhere(c, progs[r]) then Claimed(c, progs[r]) else None
  {
    hide Claimed, Prevails;
    if PrevailsSomewhere(c, progs[r]) {
      assert TVDBClaim(r, Claimed(c, progs[r]).value) in won;
    }
  }

  lemma ShowMatchedIs(c: Contest, progs: seq<Programme>, considered: seq<nat>, won: seq<TVDBClaim>)
    requires c.progs == Values(progs)
    requires forall i: nat :: i in considered <==> i < |progs| && Considered(c, progs[i])
    requires forall k :: k in won <==>
               k.ref < |progs| && Claimed(c, progs[k.ref]) == Some(k.found) && PrevailsSomewhere(c, progs[k.ref])
    ensures ShowMatched(c) <==>
            || (exists k :: k in won && k.found.strength > OFF_WINDOW)
            || (exists j :: j in considered && AtOwnNumber(c, progs[j]))
  {
    hide Claimed, AtOwnNumber;
    if ShowMatched(c) {
      var p :| BearsOut(c, p);
      var i :| 0 <= i < |progs| && progs[i] == p;
      assert i in considered;
      if !AtOwnNumber(c, p) {
        assert TVDBClaim(i, Claimed(c, p).value) in won;
      }
    }
    if k :| k in won && k.found.strength > OFF_WINDOW {
      assert BearsOut(c, progs[k.ref]);
    }
    if j :| j in considered && AtOwnNumber(c, progs[j]) {
      assert BearsOut(c, progs[j]);
    }
  }

  /** labelBorneOut by the counts. */
  lemma LabelBorneOutIs(c: Contest, progs: seq<Programme>, considered: seq<nat>, labels: map<string, LabelPIDs>, p: Programme)
    requires c.progs == Values(progs)
    requires forall i: nat :: i in considered <==> i < |progs| && Considered(c, progs[i])
    requires Labelled(c, progs, considered, labels)
    ensures var pids := PIDsUnder(labels, SeriesLabel(p.episode));
            LabelBorneOut(c, p) <==>
              && p.seriesAssumed && !p.episodeAssumed && !StoryPart(p.episode)
              && |pids.borne| >= 3 && 2 * |pids.borne| >= |pids.checkable|
  {
    hide AtOwnNumber, GivenNumber, Considered, SeriesLabel, StoryPart;
    var name := SeriesLabel(p.episode);
    var pids := PIDsUnder(labels, name);
    if name != "" {
      forall q | q in c.progs && CheckableUnder(c, q, name)
        ensures exists i :: i in considered && progs[i] == q
      {
        var i :| 0 <= i < |progs| && progs[i] == q;
        CheckableIsConsidered(c, q, name);
        assert i in considered;
      }
      assert pids.checkable == CheckablePIDs(c, name);
      assert pids.borne == BornePIDs(c, name);
    } else {
      assert pids.borne == {};
    }
  }

  lemma CheckableIsConsidered(c: Contest, q: Programme, name: string)
    requires CheckableUnder(c, q, name)
    ensures Considered(c, q)
  {
  }

  /**
   resolve. A place in the list is in won exactly when its programme wins, with
   the number it claims, and in contradicted exactly when its programme is
   contradicted; both judged for the set of programmes alone.
   */
  method Resolve(idx: TVDBIndex, progs: seq<Programme>, eligible: Programme -> bool, datable: Programme -> bool)
    returns (won: seq<TVDBClaim>, contradicted: seq<nat>)
    ensures DistinctRefs(won)
    ensures var c := ContestOf(idx, progs, eligible, datable);
            forall k :: k in won <==> k.ref < |progs| && Wins(c, progs[k.ref]) && Claimed(c, progs[k.ref]) == Some(k.found)
    ensures var c := ContestOf(idx, progs, eligible, datable);
            forall i: nat :: i in contradicted <==> i < |progs| && IsContradicted(c, progs[i])
    ensures forall i, j :: 0 <= i < j < |contradicted| ==> contradicted[i] < contradicted[j]
  {
    hide Claimed, PrevailsSomewhere, Considered, ShowMatched, Labelled, LabelBorneOut, Contradicts;
    var c := Contest(idx, (set p | p in progs), eligible, datable);
    var claims, considered := GatherClaims(c, progs);
    won := ArbitrateAll(c, progs, claims);
    var showMatched, labels := JudgeShow(c, progs, considered, won);
    if !showMatched {
      won := [];
    }
    contradicted := [];
    for i := 0 to |considered|
      invariant forall j :: j in considered[..i] ==> j in considered
      invariant forall j: nat :: j in contradicted <==> j in considered[..i] && IsContradicted(c, progs[j])
      invariant forall j, k :: 0 <= j < k < |contradicted| ==> contradicted[j] < contradicted[k]
    {
      var r := considered[i];
      assert r in considered;
      var p := progs[r];
      var pids := PIDsUnder(labels, SeriesLabel(p.episode));
      LabelBorneOutIs(c, progs, considered, labels, p);
      var numbered := exists k :: k in won && k.ref == r;
      NumberedIs(c, progs, won, r);
      var borneOut := p.seriesAssumed && !p.episodeAssumed && !StoryPart(p.episode)
                      && |pids.borne| >= 3 && 2 * |pids.borne| >= |pids.checkable|;
      if !numbered && !borneOut && Contradicts(idx, p, showMatched) {
        forall j | 0 <= j < |contradicted|
          ensures contradicted[j] < r
        {
          assert contradicted[j] in contradicted;
        }
        contradicted := contradicted + [r];
      }
    }
    assert considered[..|considered|] == considered;
  }

  lemma NumberedIs(c: Contest, progs: seq<Programme>, won: seq<TVDBClaim>, r: nat)
    requires r < |progs|
    requires forall k :: k in won <==> k.ref < |progs| && Wins(c, progs[k.ref]) && Claimed(c, progs[k.ref]) == Some(k.found)
    ensures (exists k :: k in won && k.ref == r) <==> Wins(c, progs[r])
  {
    hide Claimed, ShowMatched, Prevails;
    if Wins(c, progs[r]) {
      assert TVDBClaim(r, Claimed(c, progs[r]).value) in won;
    }
  }

  /**
   The outcome is the same for every permutation of the programmes: two lists
   of the same programmes give each of them the same number, or none, and the
   same mark.
   */
  lemma OrderDoesNotMatter(idx: TVDBIndex, progs: seq<Programme>, others: seq<Programme>,
                           eligible: Programme -> bool, datable: Programme -> bool, p: Programme)
    requires multiset(progs) == multiset(others)
    ensures var c, d := ContestOf(idx, progs, eligible, datable), ContestOf(idx, others, eligible, datable);
            && (Wins(c, p) <==> Wins(d, p)) && Claimed(c, p) == Claimed(d, p)
            && (IsContradicted(c, p) <==> IsContradicted(d, p))
  {
    forall q
      ensures q in Values(progs) <==> q in Values(others)
    {
      assert q in progs <==> q in multiset(progs);
      assert q in others <==> q in multiset(others);
    }
    assert Values(progs) == Values(others);
  }
}
