/**
 Numbering the RSS feed from the series Sonarr has searched by TheTVDB id:
 internal/newznab/tvdb.go, numberFromTVDB and numberBrowseFromTVDB.
 */
module Browse {
  import opened Text
  import opened Sanitise
  import opened Titles
  import opened TVDB
  import opened Arbitration

  datatype SeriesMapping = SeriesMapping(tvdbId: string, showName: string)

  /** A programme of the feed with the marks resolve does not read. */
  datatype Item = Item(prog: Programme, unchecked: bool, contradicted: bool)

  /**
   What one poll has to go by: the programmes, the stored mappings, the
   indexes of the episode lists that arrived, how show names are compared and
   the custom name an override gives a show ("" for none).
   */
  datatype Poll = Poll(
    progs: set<Programme>,
    mappings: set<SeriesMapping>,
    indexes: map<string, TVDBIndex>,
    nameKey: string -> string,
    customName: string -> string)

  predicate Candidate(b: Poll, p: Programme, m: SeriesMapping) {
    m in b.mappings && b.nameKey(p.name) == b.nameKey(m.showName)
  }

  predicate HasCandidate(b: Poll, p: Programme) {
    exists m :: m in b.mappings && Candidate(b, p, m)
  }

  /** The list of every candidate arrived. */
  predicate Complete(b: Poll, p: Programme) {
    forall m :: m in b.mappings && Candidate(b, p, m) ==> m.tvdbId in b.indexes
  }

  function Eligible(b: Poll, m: SeriesMapping): Programme -> bool {
    (p: Programme) => Complete(b, p) && b.nameKey(p.name) == b.nameKey(m.showName)
  }

  function ContestFor(b: Poll, m: SeriesMapping): Contest
    requires m.tvdbId in b.indexes
  {
    Contest(b.indexes[m.tvdbId], b.progs, Eligible(b, m), Eligible(b, m))
  }

  ghost predicate Picks(b: Poll, p: Programme, m: SeriesMapping) {
    m in b.mappings && m.tvdbId in b.indexes && Wins(ContestFor(b, m), p)
  }

  function PickStrength(b: Poll, p: Programme, m: SeriesMapping): Strength {
    if m.tvdbId in b.indexes then StrengthOf(ContestFor(b, m), p) else OFF_WINDOW
  }

  /** Another candidate bears out the number the programme goes out with. */
  predicate BornOutElsewhere(b: Poll, p: Programme, claimant: SeriesMapping) {
    var given := GivenNumber(p);
    && given.Some?
    && exists m :: m in b.mappings && Candidate(b, p, m) && m != claimant
                   && m.tvdbId in b.indexes && BornOut(b.indexes[m.tvdbId], p, given.value)
  }

  /** The mapping whose claim on the programme is strictly the strongest, unless it is a weak one against a number borne out. */
  ghost predicate Takes(b: Poll, p: Programme, m: SeriesMapping) {
    && Picks(b, p, m)
    && (forall n :: n in b.mappings && Picks(b, p, n) && n != m ==> PickStrength(b, p, n) < PickStrength(b, p, m))
    && !(PickStrength(b, p, m) <= ON_AIR_DATE && BornOutElsewhere(b, p, m))
  }

  ghost predicate IsNumbered(b: Poll, p: Programme) {
    exists m :: m in b.mappings && Takes(b, p, m)
  }

  function GoesOutAs(b: Poll, p: Programme): string {
    if b.customName(p.name) != "" then b.customName(p.name) else p.name
  }

  /** strings.EqualFold on two title fragments, which are ASCII. */
  predicate SameFragment(a: string, b: string) {
    Lower(SanitiseForTitle(a)) == Lower(SanitiseForTitle(b))
  }

  ghost predicate IsMarked(b: Poll, p: Programme) {
    exists m :: m in b.mappings && MarkedBy(b, p, m)
  }

  ghost predicate MarkedBy(b: Poll, p: Programme, m: SeriesMapping) {
    m.tvdbId in b.indexes && IsContradicted(ContestFor(b, m), p) && SameFragment(GoesOutAs(b, p), m.showName)
  }

  predicate IsUnchecked(b: Poll, p: Programme) {
    PositionGuess(p).Some? && HasCandidate(b, p) && !Complete(b, p)
  }

  function Apply(p: Programme, m: TVDBMatch): Programme {
    p.(series := m.season, episodeNum := m.episode, tvdbNumbered := true)
  }

  /** What the poll makes of an item. */
  ghost predicate Outcome(b: Poll, before: Item, after: Item) {
    var p := before.prog;
    && after.unchecked == (before.unchecked || IsUnchecked(b, p))
    && (IsNumbered(b, p) ==>
          !after.contradicted
          && exists m :: m in b.mappings && Takes(b, p, m) && after.prog == Apply(p, Claimed(ContestFor(b, m), p).value))
    && (!IsNumbered(b, p) ==> after.prog == p && after.contradicted == (before.contradicted || IsMarked(b, p)))
  }

  // ---- what the outcome guarantees ----

  lemma OneTaker(b: Poll, p: Programme, m: SeriesMapping, n: SeriesMapping)
    requires Takes(b, p, m) && Takes(b, p, n)
    ensures m == n
  {
  }

  lemma OutcomeIsOne(b: Poll, before: Item, x: Item, y: Item)
    requires Outcome(b, before, x) && Outcome(b, before, y)
    ensures x == y
  {
    var p := before.prog;
    if IsNumbered(b, p) {
      var m :| m in b.mappings && Takes(b, p, m) && x.prog == Apply(p, Claimed(ContestFor(b, m), p).value);
      var n :| n in b.mappings && Takes(b, p, n) && y.prog == Apply(p, Claimed(ContestFor(b, n), p).value);
      OneTaker(b, p, m, n);
    }
  }

  /** A programme is numbered only when the list of every series it could be arrived, and never ends both numbered and contradicted. */
  lemma NumberedOnlyWhenComplete(b: Poll, before: Item, after: Item)
    requires Outcome(b, before, after)
    requires !before.prog.tvdbNumbered
    ensures after.prog.tvdbNumbered <==> IsNumbered(b, before.prog)
    ensures after.prog.tvdbNumbered ==> Complete(b, before.prog) && !after.contradicted && after.unchecked == before.unchecked
  {
    hide Claimed, Prevails;
    var p := before.prog;
    if IsNumbered(b, p) {
      var m :| m in b.mappings && Takes(b, p, m);
      OutcomeIsExclusive(ContestFor(b, m), p);
    }
  }

  /** A number goes to the one series with strictly the strongest claim; a tie numbers nothing. */
  lemma TiesNumberNothing(b: Poll, p: Programme, m: SeriesMapping, n: SeriesMapping)
    requires Picks(b, p, m) && Picks(b, p, n) && m != n && PickStrength(b, p, m) == PickStrength(b, p, n)
    requires forall o :: o in b.mappings && Picks(b, p, o) ==> PickStrength(b, p, o) <= PickStrength(b, p, m)
    ensures !IsNumbered(b, p)
  {
  }

  /** The feed's mappings in any other order, or its programmes in any other order, give every item the same outcome. */
  lemma OrderOfMappingsDoesNotMatter(progs: seq<Programme>, others: seq<Programme>,
                                     mappings: seq<SeriesMapping>, rest: seq<SeriesMapping>,
                                     indexes: map<string, TVDBIndex>,
                                     nameKey: string -> string, customName: string -> string,
                                     before: Item, x: Item, y: Item)
    requires multiset(progs) == multiset(others) && multiset(mappings) == multiset(rest)
    requires Outcome(PollOf(progs, mappings, indexes, nameKey, customName), before, x)
    requires Outcome(PollOf(others, rest, indexes, nameKey, customName), before, y)
    ensures x == y
  {
    hide Outcome;
    SameElements(progs, others);
    SameElements(mappings, rest);
    OutcomeIsOne(PollOf(progs, mappings, indexes, nameKey, customName), before, x, y);
  }

  lemma SameElements<T>(a: seq<T>, b: seq<T>)
    requires multiset(a) == multiset(b)
    ensures (set x | x in a) == (set x | x in b)
  {
    forall x
      ensures x in a <==> x in b
    {
      assert x in a <==> x in multiset(a);
      assert x in b <==> x in multiset(b);
    }
  }

  function PollOf(progs: seq<Programme>, mappings: seq<SeriesMapping>, indexes: map<string, TVDBIndex>,
                  nameKey: string -> string, customName: string -> string): Poll
  {
    Poll((set p | p in progs), (set m | m in mappings), indexes, nameKey, customName)
  }

  // ---- the algorithms ----

  function ProgsIn(items: seq<Item>): seq<Programme> {
    seq(|items|, i requires 0 <= i < |items| => items[i].prog)
  }

  ghost predicate Numbering(c: Contest, before: Item, after: Item) {
    if Wins(c, before.prog) then after == before.(prog := Apply(before.prog, Claimed(c, before.prog).value))
    else if IsContradicted(c, before.prog) then after == before.(contradicted := true)
    else after == before
  }

  /** numberFromTVDB: winners take their numbers, contradicted programmes are marked, the rest stay as they are. */
  method NumberFromTVDB(idx: TVDBIndex, items: array<Item>, eligible: Programme -> bool, datable: Programme -> bool)
    returns (numbered: nat)
    modifies items
    ensures var c := ContestOf(idx, ProgsIn(old(items[..])), eligible, datable);
            && (forall i :: 0 <= i < items.Length ==> Numbering(c, old(items[i]), items[i]))
            && numbered == |set i: nat | i < items.Length && Wins(c, old(items[i]).prog)|
  {
    hide Wins, Claimed, IsContradicted;
    var progs := ProgsIn(items[..]);
    ghost var c := ContestOf(idx, progs, eligible, datable);
    var won, contradicted := Resolve(idx, progs, eligible, datable);
    for j := 0 to |won|
      invariant forall i :: 0 <= i < items.Length ==>
                  items[i] == if exists k :: k in won[..j] && k.ref == i
                              then old(items[i]).(prog := Apply(progs[i], Claimed(c, progs[i]).value)) else old(items[i])
    {
      var k := won[j];
      assert k in won && won[..j + 1] == won[..j] + [k];
      WonOnce(won, j);
      items[k.ref] := items[k.ref].(prog := Apply(items[k.ref].prog, k.found));
    }
    assert won[..|won|] == won;
    ExclusiveRefs(c, progs, won, contradicted);
    ghost var mid := items[..];
    for j := 0 to |contradicted|
      invariant forall i :: 0 <= i < items.Length ==>
                  items[i] == if i in contradicted[..j] then mid[i].(contradicted := true) else mid[i]
    {
      assert contradicted[j] in contradicted;
      items[contradicted[j]] := items[contradicted[j]].(contradicted := true);
    }
    assert contradicted[..|contradicted|] == contradicted;
    numbered := |won|;
    CountWon(c, progs, won);
    forall i | 0 <= i < items.Length
      ensures Numbering(c, old(items[i]), items[i])
    {
      NumberedIs(c, progs, won, i);
    }
    assert (set i: nat | i < items.Length && Wins(c, old(items[i]).prog)) == set i: nat | i < |progs| && Wins(c, progs[i]);
  }

  lemma WonOnce(won: seq<TVDBClaim>, j: nat)
    requires j < |won| && DistinctRefs(won)
    ensures forall k :: k in won[..j] ==> k.ref != won[j].ref
  {
  }

  lemma ExclusiveRefs(c: Contest, progs: seq<Programme>, won: seq<TVDBClaim>, contradicted: seq<nat>)
    requires forall k :: k in won ==> k.ref < |progs| && Wins(c, progs[k.ref])
    requires forall i: nat :: i in contradicted ==> i < |progs| && IsContradicted(c, progs[i])
    ensures forall k :: k in won ==> k.ref !in contradicted
  {
    hide Wins, IsContradicted;
    forall k | k in won
      ensures k.ref !in contradicted
    {
      OutcomeIsExclusive(c, progs[k.ref]);
    }
  }

  lemma CountWon(c: Contest, progs: seq<Programme>, won: seq<TVDBClaim>)
    requires DistinctRefs(won)
    requires forall k :: k in won <==> k.ref < |progs| && Wins(c, progs[k.ref]) && Claimed(c, progs[k.ref]) == Some(k.found)
    ensures |won| == |set i: nat | i < |progs| && Wins(c, progs[i])|
  {
    hide Wins, Claimed;
    forall i: nat | i < |progs|
      ensures Wins(c, progs[i]) <==> i in set k | k in won :: k.ref
    {
      NumberedIs(c, progs, won, i);
    }
    assert (set i: nat | i < |progs| && Wins(c, progs[i])) == set k | k in won :: k.ref;
    CountRefs(won);
  }

  lemma {:induction false} CountRefs(won: seq<TVDBClaim>)
    requires DistinctRefs(won)
    ensures |set k | k in won :: k.ref| == |won|
  {
    if won != [] {
      var init, last := won[..|won| - 1], won[|won| - 1];
      CountRefs(init);
      WonOnce(won, |won| - 1);
      assert won == init + [last];
      assert (set k | k in won :: k.ref) == (set k | k in init :: k.ref) + {last.ref};
    }
  }

  // ---- the feed ----

  datatype Pick = Pick(claim: TVDBMatch, series: SeriesMapping)

  function PicksAt(picks: map<nat, seq<Pick>>, i: nat): seq<Pick> {
    if i in picks then picks[i] else []
  }

  predicate DistinctSeries(pk: seq<Pick>) {
    forall i, j :: 0 <= i < j < |pk| ==> pk[i].series != pk[j].series
  }

  /** A programme's picks among the first mappings. */
  ghost predicate PickedFrom(b: Poll, p: Programme, first: seq<SeriesMapping>, pk: seq<Pick>) {
    && DistinctSeries(pk)
    && forall x :: x in pk <==> x.series in first && IsPick(b, p, x)
  }

  ghost predicate IsPick(b: Poll, p: Programme, x: Pick) {
    Picks(b, p, x.series) && Claimed(ContestFor(b, x.series), p) == Some(x.claim)
  }

  lemma PickOne(b: Poll, p: Programme, first: seq<SeriesMapping>, m: SeriesMapping, pk: seq<Pick>, claim: Option<TVDBMatch>)
    requires PickedFrom(b, p, first, pk) && m !in first
    requires claim.Some? ==> IsPick(b, p, Pick(claim.value, m))
    requires claim.None? ==> !Picks(b, p, m)
    ensures PickedFrom(b, p, first + [m], if claim.Some? then pk + [Pick(claim.value, m)] else pk)
  {
    hide Claimed, Wins;
    forall j | 0 <= j < |pk|
      ensures pk[j].series != m
    {
      assert pk[j] in pk;
    }
    if claim.Some? {
      forall x
        ensures x in pk + [Pick(claim.value, m)] <==> x.series in first + [m] && IsPick(b, p, x)
      {
        assert x in pk + [Pick(claim.value, m)] <==> x in pk || x == Pick(claim.value, m);
      }
    } else {
      forall x
        ensures x in pk <==> x.series in first + [m] && IsPick(b, p, x)
      {
      }
    }
  }

  /** Appending one mapping's winners to the picks. */
  method AddPicks(ghost b: Poll, progs: seq<Programme>, ghost first: seq<SeriesMapping>, m: SeriesMapping,
                  won: seq<TVDBClaim>, picks: map<nat, seq<Pick>>)
    returns (more: map<nat, seq<Pick>>)
    requires m in b.mappings && m.tvdbId in b.indexes && m !in first
    requires DistinctRefs(won)
    requires var c := ContestFor(b, m);
             forall k :: k in won <==> k.ref < |progs| && Wins(c, progs[k.ref]) && Claimed(c, progs[k.ref]) == Some(k.found)
    requires forall i :: 0 <= i < |progs| ==> PickedFrom(b, progs[i], first, PicksAt(picks, i))
    requires forall i :: i in picks ==> i < |progs|
    ensures forall i :: 0 <= i < |progs| ==> PickedFrom(b, progs[i], first + [m], PicksAt(more, i))
    ensures forall i :: i in more ==> i < |progs|
  {
    hide Wins, Claimed, PickedFrom;
    more := picks;
    for j := 0 to |won|
      invariant forall i :: i in more ==> i < |progs|
      invariant forall i :: 0 <= i < |progs| && (forall k :: k in won[..j] ==> k.ref != i) ==> PicksAt(more, i) == PicksAt(picks, i)
      invariant forall k :: k in won[..j] ==> PicksAt(more, k.ref) == PicksAt(picks, k.ref) + [Pick(k.found, m)]
    {
      var k := won[j];
      assert k in won && won[..j + 1] == won[..j] + [k];
      WonOnce(won, j);
      more := more[k.ref := PicksAt(more, k.ref) + [Pick(k.found, m)]];
    }
    assert won[..|won|] == won;
    forall i | 0 <= i < |progs|
      ensures PickedFrom(b, progs[i], first + [m], PicksAt(more, i))
    {
      NumberedIs(ContestFor(b, m), progs, won, i);
      if k :| k in won && k.ref == i {
        PickOne(b, progs[i], first, m, PicksAt(picks, i), Some(k.found));
      } else {
        PickOne(b, progs[i], first, m, PicksAt(picks, i), None);
      }
    }
  }

  /** The pick stronger than every other, if there is one. */
  method Strictest(pk: seq<Pick>) returns (best: Strength, chosen: Option<Pick>)
    requires DistinctSeries(pk)
    ensures forall x :: x in pk ==> x.claim.strength <= best
    ensures chosen.Some? ==> chosen.value in pk && chosen.value.claim.strength == best
    ensures forall x :: chosen == Some(x) <==> x in pk && forall y :: y in pk && y != x ==> y.claim.strength < x.claim.strength
  {
    best := OFF_WINDOW;
    for i := 0 to |pk|
      invariant forall x :: x in pk[..i] ==> x.claim.strength <= best
      invariant if i == 0 then best == OFF_WINDOW else exists k :: 0 <= k < i && pk[k].claim.strength == best
    {
      if pk[i].claim.strength > best {
        best := pk[i].claim.strength;
      }
      assert pk[..i + 1] == pk[..i] + [pk[i]];
    }
    assert pk[..|pk|] == pk;
    var top := [];
    for i := 0 to |pk|
      invariant forall x :: x in top <==> x in pk[..i] && x.claim.strength == best
      invariant forall a, b :: 0 <= a < b < |top| ==> top[a] != top[b]
    {
      if pk[i].claim.strength == best {
        assert pk[i] !in pk[..i];
        top := top + [pk[i]];
      }
    }
    if |top| == 1 {
      assert top[0] in top;
      chosen := Some(top[0]);
    } else {
      chosen := None;
      if |top| > 1 {
        assert top[0] in top && top[1] in top;
      }
    }
  }

  predicate Chooses(b: Poll, p: Programme, best: Strength, chosen: Option<Pick>) {
    chosen.Some? && !(best <= ON_AIR_DATE && BornOutElsewhere(b, p, chosen.value.series))
  }

  /** The strictest of a programme's picks, put to the borne-out test, is the mapping it takes. */
  lemma ChoiceIsTaken(b: Poll, p: Programme, mappings: seq<SeriesMapping>, pk: seq<Pick>, best: Strength, chosen: Option<Pick>)
    requires b.mappings == (set m | m in mappings) && PickedFrom(b, p, mappings, pk)
    requires chosen.Some? ==> chosen.value in pk && chosen.value.claim.strength == best
    requires forall x :: chosen == Some(x) <==> x in pk && forall y :: y in pk && y != x ==> y.claim.strength < x.claim.strength
    ensures Chooses(b, p, best, chosen) ==> Takes(b, p, chosen.value.series) && IsPick(b, p, chosen.value)
    ensures !Chooses(b, p, best, chosen) ==> !IsNumbered(b, p)
  {
    hide Claimed, Wins, BornOutElsewhere;
    if chosen.Some? {
      forall n | n in b.mappings && Picks(b, p, n) && n != chosen.value.series
        ensures PickStrength(b, p, n) < best
      {
        assert Wins(ContestFor(b, n), p);
        WinnerClaims(ContestFor(b, n), p);
        var y := Pick(Claimed(ContestFor(b, n), p).value, n);
        assert y in pk;
      }
    }
    if m :| m in b.mappings && Takes(b, p, m) {
      WinnerClaims(ContestFor(b, m), p);
      var x := Pick(Claimed(ContestFor(b, m), p).value, m);
      assert x in pk;
      forall y | y in pk && y != x
        ensures y.claim.strength < x.claim.strength
      {
        assert y.series in b.mappings;
      }
      assert chosen == Some(x);
    }
  }

  lemma WinnerClaims(c: Contest, p: Programme)
    requires Wins(c, p)
    ensures Claimed(c, p).Some?
  {
  }

  lemma NoCandidateNotNumbered(b: Poll, p: Programme)
    requires !HasCandidate(b, p)
    ensures !IsNumbered(b, p) && !IsMarked(b, p)
  {
    hide Claimed, Prevails;
    forall m | m in b.mappings && m.tvdbId in b.indexes
      ensures !Wins(ContestFor(b, m), p) && !IsContradicted(ContestFor(b, m), p)
    {
      OutcomeIsExclusive(ContestFor(b, m), p);
      assert Candidate(b, p, m) <==> b.nameKey(p.name) == b.nameKey(m.showName);
    }
  }

  /** Nothing becomes of a programme no mapping's name fits. */
  lemma NoCandidateNoOutcome(b: Poll, before: Item)
    requires !HasCandidate(b, before.prog)
    ensures Outcome(b, before, before)
  {
    NoCandidateNotNumbered(b, before.prog);
  }

  /** markUnchecked, for the programmes some candidate's list did not arrive for, and how many there were. */
  method MarkUnchecked(b: Poll, items: array<Item>) returns (n: nat)
    modifies items
    ensures forall i :: 0 <= i < items.Length ==>
              items[i] == old(items[i]).(unchecked := old(items[i]).unchecked || IsUnchecked(b, old(items[i]).prog))
    ensures n == |set i | 0 <= i < items.Length && IsUnchecked(b, old(items[i]).prog)|
  {
    hide IsUnchecked;
    n := 0;
    ghost var marked: set<int> := {};
    for i := 0 to items.Length
      invariant forall j :: 0 <= j < items.Length ==>
                  items[j] == if j < i then old(items[j]).(unchecked := old(items[j]).unchecked || IsUnchecked(b, old(items[j]).prog))
                              else old(items[j])
      invariant marked == (set j | 0 <= j < i && IsUnchecked(b, old(items[j]).prog)) && n == |marked|
    {
      if IsUnchecked(b, items[i].prog) {
        items[i] := items[i].(unchecked := true);
        n := n + 1;
        assert i !in marked;
        marked := marked + {i};
      }
    }
  }

  /** The marks one mapping's resolve leaves. */
  method MarkContradicted(b: Poll, m: SeriesMapping, items: array<Item>, contradicted: seq<nat>)
    requires forall i :: i in contradicted ==> i < items.Length
    modifies items
    ensures forall i :: 0 <= i < items.Length ==>
              items[i] == old(items[i]).(contradicted := old(items[i]).contradicted
                || (i in contradicted && SameFragment(GoesOutAs(b, old(items[i]).prog), m.showName)))
  {
    hide SameFragment, GoesOutAs;
    for j := 0 to |contradicted|
      invariant forall i :: 0 <= i < items.Length ==>
                  items[i] == old(items[i]).(contradicted := old(items[i]).contradicted
                    || (i in contradicted[..j] && SameFragment(GoesOutAs(b, old(items[i]).prog), m.showName)))
    {
      var i := contradicted[j];
      assert i in contradicted;
      assert contradicted[..j + 1] == contradicted[..j] + [i];
      if SameFragment(GoesOutAs(b, items[i].prog), m.showName) {
        items[i] := items[i].(contradicted := true);
      }
    }
    assert contradicted[..|contradicted|] == contradicted;
  }

  ghost predicate MarkedByFirst(b: Poll, p: Programme, first: seq<SeriesMapping>) {
    exists m :: m in first && MarkedBy(b, p, m)
  }

  lemma MarkedByMore(b: Poll, p: Programme, first: seq<SeriesMapping>, m: SeriesMapping)
    ensures MarkedByFirst(b, p, first + [m]) <==> MarkedByFirst(b, p, first) || MarkedBy(b, p, m)
  {
    hide MarkedBy;
    if n :| n in first && MarkedBy(b, p, n) {
      assert n in first + [m];
    }
    if MarkedBy(b, p, m) {
      assert m in first + [m];
    }
  }

  /** Every mapping whose list arrived resolves the whole feed; its winners become picks. */
  method PickSeries(b: Poll, items: array<Item>, mappings: seq<SeriesMapping>, progs: seq<Programme>)
    returns (picks: map<nat, seq<Pick>>)
    requires forall i, j :: 0 <= i < j < |mappings| ==> mappings[i] != mappings[j]
    requires b.progs == Values(progs) && b.mappings == (set m | m in mappings) && progs == ProgsIn(items[..])
    modifies items
    ensures forall i :: 0 <= i < items.Length ==>
              items[i] == old(items[i]).(contradicted := old(items[i]).contradicted || IsMarked(b, progs[i]))
    ensures forall i :: 0 <= i < |progs| ==> PickedFrom(b, progs[i], mappings, PicksAt(picks, i))
    ensures forall i :: i in picks ==> i < |progs|
  {
    hide PickedFrom, MarkedByFirst, Wins, Claimed, IsContradicted, SameFragment, GoesOutAs;
    picks := map[];
    forall i | 0 <= i < |progs|
      ensures PickedFrom(b, progs[i], [], []) && !MarkedByFirst(b, progs[i], [])
    {
      NothingPicked(b, progs[i]);
    }
    for j := 0 to |mappings|
      invariant forall i :: 0 <= i < items.Length ==>
                  items[i] == old(items[i]).(contradicted := old(items[i]).contradicted || MarkedByFirst(b, progs[i], mappings[..j]))
      invariant forall i :: 0 <= i < |progs| ==> PickedFrom(b, progs[i], mappings[..j], PicksAt(picks, i))
      invariant forall i :: i in picks ==> i < |progs|
    {
      var m := mappings[j];
      assert mappings[..j + 1] == mappings[..j] + [m] && m !in mappings[..j];
      forall i | 0 <= i < |progs|
        ensures MarkedByFirst(b, progs[i], mappings[..j + 1]) <==> MarkedByFirst(b, progs[i], mappings[..j]) || MarkedBy(b, progs[i], m)
      {
        MarkedByMore(b, progs[i], mappings[..j], m);
      }
      if m.tvdbId in b.indexes {
        var won, contradicted := Resolve(b.indexes[m.tvdbId], progs, Eligible(b, m), Eligible(b, m));
        picks := AddPicks(b, progs, mappings[..j], m, won, picks);
        MarkContradicted(b, m, items, contradicted);
      } else {
        forall i | 0 <= i < |progs|
          ensures PickedFrom(b, progs[i], mappings[..j] + [m], PicksAt(picks, i))
        {
          PickOne(b, progs[i], mappings[..j], m, PicksAt(picks, i), None);
        }
      }
    }
    assert mappings[..|mappings|] == mappings;
    forall i | 0 <= i < |progs|
      ensures MarkedByFirst(b, progs[i], mappings) <==> IsMarked(b, progs[i])
    {
      MarkedByAll(b, progs[i], mappings);
    }
  }

  lemma NothingPicked(b: Poll, p: Programme)
    ensures PickedFrom(b, p, [], []) && !MarkedByFirst(b, p, [])
  {
  }

  lemma MarkedByAll(b: Poll, p: Programme, mappings: seq<SeriesMapping>)
    requires b.mappings == (set m | m in mappings)
    ensures MarkedByFirst(b, p, mappings) <==> IsMarked(b, p)
  {
    hide MarkedBy;
  }

  /** A programme's outcome once its picks are judged. */
  lemma JudgedOutcome(b: Poll, was: Item, marked: Item, mappings: seq<SeriesMapping>, pk: seq<Pick>,
                      best: Strength, chosen: Option<Pick>)
    requires b.mappings == (set m | m in mappings) && PickedFrom(b, was.prog, mappings, pk)
    requires marked == was.(unchecked := was.unchecked || IsUnchecked(b, was.prog),
                            contradicted := was.contradicted || IsMarked(b, was.prog))
    requires chosen.Some? ==> chosen.value in pk && chosen.value.claim.strength == best
    requires forall x :: chosen == Some(x) <==> x in pk && forall y :: y in pk && y != x ==> y.claim.strength < x.claim.strength
    ensures Chooses(b, was.prog, best, chosen) ==>
              && Takes(b, was.prog, chosen.value.series) && IsNumbered(b, was.prog)
              && Outcome(b, was, marked.(prog := Apply(was.prog, chosen.value.claim), contradicted := false))
    ensures !Chooses(b, was.prog, best, chosen) ==> !IsNumbered(b, was.prog) && Outcome(b, was, marked)
  {
    hide Takes, Claimed, IsMarked, IsUnchecked, BornOutElsewhere, PickedFrom;
    ChoiceIsTaken(b, was.prog, mappings, pk, best, chosen);
    if Chooses(b, was.prog, best, chosen) {
      TakerIsMapping(b, was.prog, chosen);
    }
  }

  lemma TakerIsMapping(b: Poll, p: Programme, chosen: Option<Pick>)
    requires chosen.Some? && Takes(b, p, chosen.value.series)
    ensures chosen.value.series in b.mappings && chosen.value.series.tvdbId in b.indexes
  {
  }

  /** The result names exactly the PIDs with a numbered item, each with a series that takes one of its items. */
  ghost predicate Taken(b: Poll, progs: seq<Programme>, out: map<string, SeriesMapping>) {
    && (forall pid :: pid in out <==> exists i :: 0 <= i < |progs| && progs[i].pid == pid && IsNumbered(b, progs[i]))
    && (forall pid :: pid in out ==> exists i :: 0 <= i < |progs| && progs[i].pid == pid && Takes(b, progs[i], out[pid]))
  }

  /** Every listing of a PID is the same programme. */
  predicate OneProgrammePerPID(progs: seq<Programme>) {
    forall i, j :: 0 <= i < |progs| && 0 <= j < |progs| && progs[i].pid == progs[j].pid ==> progs[i] == progs[j]
  }

  /** Where the listings of a PID agree, the returned mappings do not depend on the order the picks are visited in. */
  lemma TakenIsOne(b: Poll, progs: seq<Programme>, x: map<string, SeriesMapping>, y: map<string, SeriesMapping>)
    requires OneProgrammePerPID(progs) && Taken(b, progs, x) && Taken(b, progs, y)
    ensures x == y
  {
    hide Takes, IsNumbered;
    assert x.Keys == y.Keys;
    forall pid | pid in x
      ensures x[pid] == y[pid]
    {
      var i :| 0 <= i < |progs| && progs[i].pid == pid && Takes(b, progs[i], x[pid]);
      var j :| 0 <= j < |progs| && progs[j].pid == pid && Takes(b, progs[j], y[pid]);
      OneTaker(b, progs[i], x[pid], y[pid]);
    }
  }

  /** The last loop: the programmes with picks, in whatever order the map yields them. */
  method TakeNumbers(b: Poll, items: array<Item>, ghost mappings: seq<SeriesMapping>, progs: seq<Programme>,
                     picks: map<nat, seq<Pick>>, ghost was: seq<Item>)
    returns (out: map<string, SeriesMapping>)
    requires |was| == items.Length && progs == ProgsIn(was) && b.mappings == (set m | m in mappings)
    requires forall i :: 0 <= i < items.Length ==>
               items[i] == was[i].(unchecked := was[i].unchecked || IsUnchecked(b, progs[i]),
                                   contradicted := was[i].contradicted || IsMarked(b, progs[i]))
    requires forall i :: 0 <= i < |progs| ==> PickedFrom(b, progs[i], mappings, PicksAt(picks, i))
    requires forall i :: i in picks ==> i < |progs|
    modifies items
    ensures forall i :: 0 <= i < items.Length ==> Outcome(b, was[i], items[i])
    ensures Taken(b, progs, out)
  {
    hide Takes, Claimed, IsMarked, IsUnchecked, PickedFrom, Outcome, IsNumbered;
    out := map[];
    var left := picks.Keys;
    while left != {}
      invariant left <= picks.Keys
      invariant forall i :: 0 <= i < items.Length && (i in left || i !in picks) ==> items[i] == old(items[i])
      invariant forall i :: i in picks && i !in left ==> Outcome(b, was[i], items[i])
      invariant forall i :: i in picks && i !in left && IsNumbered(b, progs[i]) ==> progs[i].pid in out
      invariant forall pid :: pid in out ==>
                  exists i :: 0 <= i < |progs| && progs[i].pid == pid && IsNumbered(b, progs[i]) && Takes(b, progs[i], out[pid])
      decreases |left|
    {
      var i :| i in left;
      var best, chosen := StrictestOf(b, progs[i], mappings, picks[i]);
      assert PicksAt(picks, i) == picks[i];
      JudgedOutcome(b, was[i], items[i], mappings, picks[i], best, chosen);
      if Chooses(b, progs[i], best, chosen) {
        items[i] := items[i].(prog := Apply(items[i].prog, chosen.value.claim), contradicted := false);
        out := out[progs[i].pid := chosen.value.series];
      }
      left := left - {i};
    }
    forall i | 0 <= i < items.Length && i !in picks
      ensures Outcome(b, was[i], items[i]) && !IsNumbered(b, progs[i])
    {
      assert PicksAt(picks, i) == [];
      JudgedOutcome(b, was[i], items[i], mappings, [], OFF_WINDOW, None);
    }
  }

  method StrictestOf(ghost b: Poll, ghost p: Programme, ghost mappings: seq<SeriesMapping>, pk: seq<Pick>)
    returns (best: Strength, chosen: Option<Pick>)
    requires PickedFrom(b, p, mappings, pk)
    ensures chosen.Some? ==> chosen.value in pk && chosen.value.claim.strength == best
    ensures forall x :: chosen == Some(x) <==> x in pk && forall y :: y in pk && y != x ==> y.claim.strength < x.claim.strength
  {
    best, chosen := Strictest(pk);
  }

  lemma NobodyNumbered(b: Poll, progs: seq<Programme>)
    requires forall p :: p in progs ==> !HasCandidate(b, p)
    ensures forall p :: p in progs ==> !IsNumbered(b, p)
  {
    hide Outcome;
    forall p | p in progs
      ensures !IsNumbered(b, p)
    {
      NoCandidateNotNumbered(b, p);
    }
  }

  method NumberBrowse(items: array<Item>, mappings: seq<SeriesMapping>, indexes: map<string, TVDBIndex>,
                      nameKey: string -> string, customName: string -> string)
    returns (out: map<string, SeriesMapping>)
    requires forall i, j :: 0 <= i < j < |mappings| ==> mappings[i] != mappings[j]
    modifies items
    ensures var b := PollOf(ProgsIn(old(items[..])), mappings, indexes, nameKey, customName);
            && (forall i :: 0 <= i < items.Length ==> Outcome(b, old(items[i]), items[i]))
            && Taken(b, ProgsIn(old(items[..])), out)
  {
    hide Outcome, Takes, IsMarked, Picks, PickedFrom, IsUnchecked, Chooses, IsPick, HasCandidate;
    ghost var was := items[..];
    var progs := ProgsIn(items[..]);
    var b := PollOf(progs, mappings, indexes, nameKey, customName);
    out := map[];
    if forall p :: p in progs ==> !HasCandidate(b, p) {
      forall i | 0 <= i < items.Length
        ensures Outcome(b, was[i], items[i])
      {
        assert progs[i] in progs;
        NoCandidateNoOutcome(b, was[i]);
      }
      NobodyNumbered(b, progs);
      forall i | 0 <= i < items.Length
        ensures !IsNumbered(b, was[i].prog)
      {
        assert progs[i] in progs;
      }
      return;
    }
    var _ := MarkUnchecked(b, items);
    var picks := PickSeries(b, items, mappings, progs);
    out := TakeNumbers(b, items, mappings, progs, picks, was);
  }
}
