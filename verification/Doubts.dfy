/**
 Which numbers are doubted, confirmed and claimed, in terms of the programme's
 fields, the number its title is printed with and the episode list itself:
 internal/newznab/tvdb.go, checkGuess, contradicts and resolve's claims.
 */
module Doubts {
  import opened Text
  import opened Dates
  import opened Titles
  import opened TVDB
  import opened Matching
  import opened Arbitration

  // ---- the episode at a number ----

  /** The i-th episode of the list is the last dated one of the number. */
  predicate LastAt(eps: seq<TVDBEpisode>, i: nat, n: (int, int)) {
    && i < |eps| && Listed(eps[i]) && (eps[i].season, eps[i].episode) == n
    && forall j :: i < j < |eps| && Listed(eps[j]) ==> (eps[j].season, eps[j].episode) != n
  }

  lemma {:induction false} LastNumberedAt(eps: seq<TVDBEpisode>, n: (int, int))
    ensures forall i: nat :: LastAt(eps, i, n) ==> LastNumbered(eps, n) == Some(eps[i])
    ensures LastNumbered(eps, n).Some? ==> exists i: nat :: LastAt(eps, i, n)
  {
    hide Listed;
    if eps != [] {
      var k := |eps| - 1;
      var init := eps[..k];
      LastNumberedAt(init, n);
      if Listed(eps[k]) && (eps[k].season, eps[k].episode) == n {
        assert LastAt(eps, k, n);
      } else {
        forall i: nat
          ensures LastAt(eps, i, n) <==> LastAt(init, i, n)
        {
          LastAtShorter(eps, i, n);
        }
        if i: nat :| LastAt(init, i, n) {
          assert LastAt(eps, i, n);
        }
      }
    }
  }

  lemma LastAtShorter(eps: seq<TVDBEpisode>, i: nat, n: (int, int))
    requires eps != []
    requires var e := eps[|eps| - 1]; !(Listed(e) && (e.season, e.episode) == n)
    ensures LastAt(eps, i, n) <==> LastAt(eps[..|eps| - 1], i, n)
  {
    hide Listed;
    var init := eps[..|eps| - 1];
    assert forall j :: 0 <= j < |init| ==> init[j] == eps[j];
  }

  predicate SameTitle(lexicon: Lexicon, e: TVDBEpisode, subtitle: string) {
    lexicon.titleKey(subtitle) != "" && lexicon.titleKey(subtitle) == lexicon.titleKey(e.title)
  }

  /** The programme aired within so many days of the episode, before or after. */
  predicate AiredWithin(e: TVDBEpisode, airDate: string, days: int)
    requires Listed(e)
  {
    ParseDay(airDate).Some? && -days <= DayOf(e) - ParseDay(airDate).value <= days
  }

  lemma GuessAt(idx: TVDBIndex, eps: seq<TVDBEpisode>, i: nat, n: (int, int), p: Programme)
    requires Indexes(idx, eps) && LastAt(eps, i, n)
    ensures var e := eps[i];
            CheckGuess(idx, n, p.episode, p.airDate) ==
              if SameTitle(idx.lexicon, e, p.episode) then Confirmed
              else if ParseDay(p.airDate).None? then Unchecked
              else if e.airDate == p.airDate then Confirmed
              else if AiredWithin(e, p.airDate, 7) then Near
              else Contradicted
  {
    hide ParseDay;
    LastNumberedAt(eps, n);
    assert EpisodeAt(idx, n) == LastNumbered(eps, n);
  }

  lemma NoGuessAt(idx: TVDBIndex, eps: seq<TVDBEpisode>, n: (int, int), p: Programme)
    requires Indexes(idx, eps) && forall i: nat :: !LastAt(eps, i, n)
    ensures CheckGuess(idx, n, p.episode, p.airDate) == Unchecked
  {
    hide LastAt, ParseDay;
    LastNumberedAt(eps, n);
    assert EpisodeAt(idx, n) == LastNumbered(eps, n);
  }

  lemma SameDateIsNear(e: TVDBEpisode, airDate: string)
    requires Listed(e) && e.airDate == airDate
    ensures AiredWithin(e, airDate, 7)
  {
  }

  /** A number is borne out exactly by the last dated episode the list has at it: by its title, or by an air date no more than a week away. */
  lemma BornOutMeans(idx: TVDBIndex, eps: seq<TVDBEpisode>, p: Programme, n: (int, int))
    requires Indexes(idx, eps)
    ensures BornOut(idx, p, n) <==>
              exists i: nat :: LastAt(eps, i, n) && (SameTitle(idx.lexicon, eps[i], p.episode) || AiredWithin(eps[i], p.airDate, 7))
  {
    hide Indexes, LastAt, SameTitle, AiredWithin, CheckGuess, ParseDay;
    if i: nat :| LastAt(eps, i, n) {
      LastIsOne(eps, n, i);
      GuessAt(idx, eps, i, n, p);
      LastIsListed(eps, i, n);
      if eps[i].airDate == p.airDate {
        SameDateIsNear(eps[i], p.airDate);
      }
      UndatedIsNotNear(eps[i], p.airDate);
    } else {
      NoGuessAt(idx, eps, n, p);
    }
  }

  lemma LastIsListed(eps: seq<TVDBEpisode>, i: nat, n: (int, int))
    requires LastAt(eps, i, n)
    ensures i < |eps| && Listed(eps[i])
  {
  }

  lemma LastIsOne(eps: seq<TVDBEpisode>, n: (int, int), i: nat)
    requires LastAt(eps, i, n)
    ensures forall j: nat :: LastAt(eps, j, n) ==> j == i
  {
    hide Listed;
  }

  lemma UndatedIsNotNear(e: TVDBEpisode, airDate: string)
    requires Listed(e)
    ensures ParseDay(airDate).None? ==> !AiredWithin(e, airDate, 7)
  {
  }

  /** A guess keeps the air date from naming a special when the episode there has its title or aired that day, or, at a regular number, within a week. */
  lemma GuessStandsMeans(idx: TVDBIndex, eps: seq<TVDBEpisode>, p: Programme, n: (int, int))
    requires Indexes(idx, eps)
    ensures GuessStands(idx, p, n) <==>
              exists i: nat :: LastAt(eps, i, n) &&
                (SameTitle(idx.lexicon, eps[i], p.episode) || eps[i].airDate == p.airDate
                 || (n.0 != 0 && AiredWithin(eps[i], p.airDate, 7)))
  {
    hide Indexes, LastAt, SameTitle, AiredWithin, CheckGuess, ParseDay;
    if i: nat :| LastAt(eps, i, n) {
      LastIsOne(eps, n, i);
      GuessAt(idx, eps, i, n, p);
      LastIsListed(eps, i, n);
      ListedIsDated(eps[i]);
      UndatedIsNotNear(eps[i], p.airDate);
    } else {
      NoGuessAt(idx, eps, n, p);
    }
  }

  // ---- doubt ----

  /** The identity the programme's title has with no override and without TheTVDB. */
  function OwnIdentity(p: Programme): Identity {
    IdentityOf(p.(tvdbNumbered := false), None)
  }

  predicate HasBothNumbers(p: Programme) {
    p.series > 0 && p.episodeNum > 0
  }

  /** A printed number is a guess unless BBC gave both its parts, save for a special whose series was assumed. */
  lemma GuessedMeans(p: Programme)
    ensures PositionGuess(p).Some? <==>
              OwnIdentity(p).Numbered? && (HasBothNumbers(p) ==> p.seriesAssumed && IsSpecial(p.episode))
    ensures PositionGuess(p).Some? ==> PositionGuess(p).value == (OwnIdentity(p).season, OwnIdentity(p).number)
  {
    hide IsSpecial, IsDateSubtitle, MmddFromDate;
  }

  /** Every dated episode of the list is more than a year later than the day, or every one more than ten years earlier. */
  ghost predicate OutsideRun(eps: seq<TVDBEpisode>, airDate: string) {
    && ParseDay(airDate).Some?
    && (exists e :: e in eps && Listed(e))
    && ((forall e :: e in eps && Listed(e) ==> ParseDay(airDate).value < DayOf(e) - 365)
        || (forall e :: e in eps && Listed(e) ==> ParseDay(airDate).value > DayOf(e) + 3650))
  }

  /**
   A programme's number may be another's: a special's that BBC did not give; one
   BBC gave but for an assumed series, an assumed episode or a story's part; and
   any other BBC gave, when nothing of the show is borne out and the programme
   aired outside the list's run.
   */
  ghost predicate Doubtful(eps: seq<TVDBEpisode>, p: Programme, showMatched: bool) {
    if HasBothNumbers(p) then
      p.seriesAssumed || p.episodeAssumed || StoryPart(p.episode) || (!showMatched && OutsideRun(eps, p.airDate))
    else
      IsSpecial(p.episode)
  }

  /** The list's last dated episode of the number has another title and aired more than a week from the programme. */
  ghost predicate OtherEpisodeAt(lexicon: Lexicon, eps: seq<TVDBEpisode>, p: Programme, n: (int, int)) {
    exists i: nat :: LastAt(eps, i, n) && !SameTitle(lexicon, eps[i], p.episode)
                     && ParseDay(p.airDate).Some? && !AiredWithin(eps[i], p.airDate, 7)
  }

  lemma ContradictedAtMeans(idx: TVDBIndex, eps: seq<TVDBEpisode>, p: Programme, n: (int, int))
    requires Indexes(idx, eps)
    ensures CheckGuess(idx, n, p.episode, p.airDate) == Contradicted <==> OtherEpisodeAt(idx.lexicon, eps, p, n)
  {
    hide Indexes, LastAt, SameTitle, AiredWithin, CheckGuess, ParseDay;
    if i: nat :| LastAt(eps, i, n) {
      LastIsOne(eps, n, i);
      GuessAt(idx, eps, i, n, p);
      LastIsListed(eps, i, n);
      if eps[i].airDate == p.airDate {
        SameDateIsNear(eps[i], p.airDate);
      }
    } else {
      NoGuessAt(idx, eps, n, p);
    }
  }

  lemma DoubtfulMeans(idx: TVDBIndex, eps: seq<TVDBEpisode>, p: Programme, showMatched: bool)
    requires Indexes(idx, eps) && AfterYearOne(eps) && OwnIdentity(p).Numbered?
    ensures Doubtful(eps, p, showMatched) <==>
              var guessed := PositionGuess(p).Some?;
              (guessed && IsSpecial(p.episode))
              || (!guessed && (AssumedNumber(p) || (!showMatched && BeyondRun(idx, p.airDate))))
  {
    hide Indexes, IsSpecial, PositionGuess, OwnIdentity, BeyondRun, StoryPart, ParseDay;
    GuessedMeans(p);
    BeyondRunMeans(idx, eps, p.airDate);
  }

  /**
   TheTVDB contradicts a programme's number if and only if its title has one,
   that number is doubtful, and the list's episode there is another.
   */
  lemma ContradictsMeans(idx: TVDBIndex, eps: seq<TVDBEpisode>, p: Programme, showMatched: bool)
    requires Indexes(idx, eps) && AfterYearOne(eps)
    ensures Contradicts(idx, p, showMatched) <==>
              && OwnIdentity(p).Numbered?
              && Doubtful(eps, p, showMatched)
              && OtherEpisodeAt(idx.lexicon, eps, p, (OwnIdentity(p).season, OwnIdentity(p).number))
  {
    hide Indexes, IsSpecial, IsDateSubtitle, IdentityOf, BeyondRun, CheckGuess, Doubtful, OtherEpisodeAt, StoryPart, PositionGuess;
    GivenNumberIsPrinted(p.(tvdbNumbered := false));
    GivenIgnoresTVDB(p);
    if OwnIdentity(p).Numbered? {
      DoubtfulMeans(idx, eps, p, showMatched);
      ContradictedAtMeans(idx, eps, p, (OwnIdentity(p).season, OwnIdentity(p).number));
    }
  }

  lemma GivenIgnoresTVDB(p: Programme)
    ensures GivenNumber(p.(tvdbNumbered := false)) == GivenNumber(p)
  {
    hide IsSpecial, IsDateSubtitle;
  }

  /**
   The places resolve returns as contradicted are exactly those of eligible
   programmes, no daily's date for a subtitle, that win no number, whose label
   does not bear them out, and whose printed number is doubtful and another
   episode's in the list.
   */
  lemma ContradictedPlaces(idx: TVDBIndex, eps: seq<TVDBEpisode>, progs: seq<Programme>,
                           eligible: Programme -> bool, datable: Programme -> bool, contradicted: seq<nat>)
    requires Indexes(idx, eps) && AfterYearOne(eps)
    requires var c := ContestOf(idx, progs, eligible, datable);
             forall i: nat :: i in contradicted <==> i < |progs| && IsContradicted(c, progs[i])
    ensures var c := ContestOf(idx, progs, eligible, datable);
            forall i: nat :: i in contradicted <==>
              && i < |progs| && eligible(progs[i]) && !IsDateLikeSubtitle(progs[i].episode)
              && !Wins(c, progs[i]) && !LabelBorneOut(c, progs[i])
              && OwnIdentity(progs[i]).Numbered? && Doubtful(eps, progs[i], ShowMatched(c))
              && OtherEpisodeAt(idx.lexicon, eps, progs[i], (OwnIdentity(progs[i]).season, OwnIdentity(progs[i]).number))
  {
    hide Indexes, Wins, LabelBorneOut, ShowMatched, Contradicts, OtherEpisodeAt, Doubtful, OwnIdentity, IsDateLikeSubtitle;
    var c := ContestOf(idx, progs, eligible, datable);
    forall i: nat | i < |progs|
      ensures IsContradicted(c, progs[i]) <==>
                && eligible(progs[i]) && !IsDateLikeSubtitle(progs[i].episode)
                && !Wins(c, progs[i]) && !LabelBorneOut(c, progs[i])
                && OwnIdentity(progs[i]).Numbered? && Doubtful(eps, progs[i], ShowMatched(c))
                && OtherEpisodeAt(idx.lexicon, eps, progs[i], (OwnIdentity(progs[i]).season, OwnIdentity(progs[i]).number))
    {
      assert progs[i] in progs;
      ContradictsMeans(idx, eps, progs[i], ShowMatched(c));
    }
  }

  // ---- claims ----

  /** The number a programme's title has is a guess. */
  predicate Guessed(p: Programme) {
    OwnIdentity(p).Numbered? && (HasBothNumbers(p) ==> p.seriesAssumed && IsSpecial(p.episode))
  }

  /** Something of the list has a title of the programme's and aired near it. */
  ghost predicate TitleHit(idx: TVDBIndex, eps: seq<TVDBEpisode>, p: Programme, m: TVDBMatch) {
    Hit(idx.lexicon, eps, idx.lexicon.candidates(p.episode), p.airDate, m)
  }

  /** A programme whose title fits one episode near its air date claims it, as strongly as its best title fits; one whose title fits two claims none. */
  lemma ClaimByTitle(idx: TVDBIndex, eps: seq<TVDBEpisode>, p: Programme, datable: bool, m: TVDBMatch)
    requires Indexes(idx, eps) && TitleHit(idx, eps, p, m)
    ensures (forall n :: TitleHit(idx, eps, p, n) ==> n.Number() == m.Number() && n.strength <= m.strength)
            ==> ClaimOf(idx, p, datable) == Some(m)
    ensures (exists n :: TitleHit(idx, eps, p, n) && n.Number() != m.Number()) ==> ClaimOf(idx, p, datable).None?
  {
    hide Hit, TitleVerdictOf, Indexes, SpecialOn, TitleAnyDate, GuessStands, PositionGuess;
    TitleVerdictMeans(idx, eps, p.episode, p.airDate);
  }

  /**
   A title of the programme's own makes a full title match, the strongest, and
   one that only follows a grouping label the next: any other claim is weaker.
   */
  lemma FullTitleClaims(idx: TVDBIndex, eps: seq<TVDBEpisode>, p: Programme, datable: bool, e: TVDBEpisode, c: Candidate)
    requires Indexes(idx, eps) && e in eps && c in idx.lexicon.candidates(p.episode)
    requires TitledNear(idx.lexicon, e, c, p.airDate)
    requires forall m :: TitleHit(idx, eps, p, m) ==> m.Number() == (e.season, e.episode)
    ensures OFF_WINDOW < ON_AIR_DATE < ON_LABEL < ON_TITLE
    ensures !c.weak ==> ClaimOf(idx, p, datable) == Some(TVDBMatch(e.season, e.episode, ON_TITLE))
    ensures (forall d :: d in idx.lexicon.candidates(p.episode) ==> d.weak) ==>
              ClaimOf(idx, p, datable) == Some(TVDBMatch(e.season, e.episode, ON_LABEL))
  {
    hide TitledNear, TitleVerdictOf, Indexes, SpecialOn, TitleAnyDate, GuessStands, PositionGuess;
    var m := MatchOf(e, CandidateStrength(c));
    assert TitleHit(idx, eps, p, m);
    if !c.weak || forall d :: d in idx.lexicon.candidates(p.episode) ==> d.weak {
      ClaimByTitle(idx, eps, p, datable, m);
    }
  }

  lemma NothingHits(idx: TVDBIndex, eps: seq<TVDBEpisode>, p: Programme)
    requires Indexes(idx, eps) && forall m :: !TitleHit(idx, eps, p, m)
    ensures TitleVerdictOf(idx, p.episode, p.airDate).NoEpisode?
  {
    hide Hit, TitleVerdictOf, Indexes;
    TitleVerdictMeans(idx, eps, p.episode, p.airDate);
    forall m
      ensures !Hit(idx.lexicon, eps, idx.lexicon.candidates(p.episode), p.airDate, m)
    {
      assert !TitleHit(idx, eps, p, m);
    }
  }

  // -- a special by its day --

  function AiredAt(eps: seq<TVDBEpisode>, day: int): set<nat> {
    set i: nat | i < |eps| && Listed(eps[i]) && eps[i].season == 0 && DayOf(eps[i]) == day
  }

  function NamedAt(lexicon: Lexicon, eps: seq<TVDBEpisode>, subtitle: string, day: int): set<nat> {
    set i: nat | i in AiredAt(eps, day) && Named(lexicon, subtitle, eps[i])
  }

  /** The one special of the list that aired that day, or when several did, the one whose title the subtitle contains. */
  ghost predicate SpecialOfDay(lexicon: Lexicon, eps: seq<TVDBEpisode>, subtitle: string, airDate: string, i: nat) {
    && ParseDay(airDate).Some?
    && var aired, named := AiredAt(eps, ParseDay(airDate).value), NamedAt(lexicon, eps, subtitle, ParseDay(airDate).value);
    aired == {i} || (|aired| > 1 && named == {i})
  }

  lemma {:induction false} AiredCount(eps: seq<TVDBEpisode>, day: int)
    ensures |SpecialsAired(eps, day)| == |AiredAt(eps, day)|
    ensures forall i: nat :: AiredAt(eps, day) == {i} ==> SpecialsAired(eps, day) == [eps[i]]
  {
    hide ParseDay;
    if eps == [] {
      assert AiredAt(eps, day) == {};
    } else {
      var k := |eps| - 1;
      var init := eps[..k];
      AiredCount(init, day);
      AiredMore(eps, day);
      if k in AiredAt(eps, day) {
        assert AiredAt(eps, day) == AiredAt(init, day) + {k};
        forall i: nat | AiredAt(eps, day) == {i}
          ensures SpecialsAired(eps, day) == [eps[i]]
        {
          assert k in {i};
          assert AiredAt(init, day) == {};
        }
      } else {
        assert AiredAt(eps, day) == AiredAt(init, day);
        forall i: nat | AiredAt(eps, day) == {i}
          ensures SpecialsAired(eps, day) == [eps[i]]
        {
          assert i in AiredAt(init, day);
        }
      }
    }
  }

  lemma AiredMore(eps: seq<TVDBEpisode>, day: int)
    requires eps != []
    ensures forall i: nat :: i < |eps| - 1 ==> (i in AiredAt(eps, day) <==> i in AiredAt(eps[..|eps| - 1], day))
    ensures |eps| - 1 in AiredAt(eps, day) <==>
              var e := eps[|eps| - 1]; Listed(e) && e.season == 0 && ParseDay(e.airDate) == Some(day)
  {
    hide ParseDay;
  }

  function Key(lexicon: Lexicon, subtitle: string): string {
    " " + lexicon.titleKey(subtitle) + " "
  }

  lemma {:induction false} NamedCount(lexicon: Lexicon, eps: seq<TVDBEpisode>, subtitle: string, day: int)
    ensures |NamedIn(lexicon, SpecialsAired(eps, day), Key(lexicon, subtitle))| == |NamedAt(lexicon, eps, subtitle, day)|
    ensures forall i: nat :: NamedAt(lexicon, eps, subtitle, day) == {i} ==>
              NamedIn(lexicon, SpecialsAired(eps, day), Key(lexicon, subtitle)) == [eps[i]]
  {
    hide ParseDay, Contains;
    if eps == [] {
      assert NamedAt(lexicon, eps, subtitle, day) == {};
    } else {
      var k := |eps| - 1;
      var init := eps[..k];
      var at, before := NamedAt(lexicon, eps, subtitle, day), NamedAt(lexicon, init, subtitle, day);
      NamedCount(lexicon, init, subtitle, day);
      AiredMore(eps, day);
      NamedMore(lexicon, eps, init, k, subtitle, day);
      NamedInMore(lexicon, eps, subtitle, day);
      hide NamedAt, AiredAt, NamedIn, SpecialsAired;
      if k in at {
        assert at == before + {k};
        forall i: nat | at == {i}
          ensures NamedIn(lexicon, SpecialsAired(eps, day), Key(lexicon, subtitle)) == [eps[i]]
        {
          assert k in {i};
          assert before == {} by {
            assert forall x :: x in before ==> x in at && x < k;
          }
        }
      } else {
        assert at == before;
        forall i: nat | at == {i}
          ensures NamedIn(lexicon, SpecialsAired(eps, day), Key(lexicon, subtitle)) == [eps[i]]
        {
          assert i in before;
        }
      }
    }
  }

  lemma NamedMore(lexicon: Lexicon, eps: seq<TVDBEpisode>, init: seq<TVDBEpisode>, k: nat, subtitle: string, day: int)
    requires |eps| == k + 1 && init == eps[..k]
    ensures forall i: nat ::
              i in NamedAt(lexicon, eps, subtitle, day) <==>
              i in NamedAt(lexicon, init, subtitle, day)
              || (i == k && i in AiredAt(eps, day) && Named(lexicon, subtitle, eps[i]))
    ensures forall i :: i in NamedAt(lexicon, init, subtitle, day) ==> i < k
  {
    hide ParseDay, Contains, Named;
    AiredMore(eps, day);
  }

  lemma NamedInMore(lexicon: Lexicon, eps: seq<TVDBEpisode>, subtitle: string, day: int)
    requires eps != []
    ensures var k := |eps| - 1;
            NamedIn(lexicon, SpecialsAired(eps, day), Key(lexicon, subtitle)) ==
            NamedIn(lexicon, SpecialsAired(eps[..k], day), Key(lexicon, subtitle))
            + if k in AiredAt(eps, day) && Named(lexicon, subtitle, eps[k]) then [eps[k]] else []
  {
    hide ParseDay, Contains;
    var k := |eps| - 1;
    AiredMore(eps, day);
    var all, init := SpecialsAired(eps, day), SpecialsAired(eps[..k], day);
    if k in AiredAt(eps, day) {
      assert all == init + [eps[k]];
      assert all[..|all| - 1] == init && all[|all| - 1] == eps[k];
    } else {
      assert all == init;
    }
  }

  /** An air date names a special exactly when there is a special of the day, and then that one. */
  lemma SpecialOnExactly(idx: TVDBIndex, eps: seq<TVDBEpisode>, subtitle: string, airDate: string)
    requires Indexes(idx, eps)
    ensures SpecialOn(idx, subtitle, airDate).Some? <==> exists i: nat :: SpecialOfDay(idx.lexicon, eps, subtitle, airDate, i)
    ensures forall i: nat :: SpecialOfDay(idx.lexicon, eps, subtitle, airDate, i) ==>
              i < |eps| && SpecialOn(idx, subtitle, airDate) == Some(MatchOf(eps[i], ON_AIR_DATE))
  {
    hide Listed, ParseDay, Named, NamedIn, SpecialsAired;
    if ParseDay(airDate).Some? {
      var day := ParseDay(airDate).value;
      assert SpecialsOn(idx, day) == SpecialsAired(eps, day);
      AiredCount(eps, day);
      NamedCount(idx.lexicon, eps, subtitle, day);
      var aired, named := AiredAt(eps, day), NamedAt(idx.lexicon, eps, subtitle, day);
      SingletonOf(aired);
      SingletonOf(named);
      if |aired| == 1 {
        var i: nat :| aired == {i};
        assert SpecialOfDay(idx.lexicon, eps, subtitle, airDate, i);
      } else if |aired| > 1 && |named| == 1 {
        var i: nat :| named == {i};
        assert SpecialOfDay(idx.lexicon, eps, subtitle, airDate, i);
      }
      forall i: nat | aired == {i} || named == {i}
        ensures i < |eps|
      {
        assert i in aired || i in named;
      }
    }
  }

  lemma SingletonOf(s: set<nat>)
    ensures |s| == 1 <==> exists i: nat :: s == {i}
  {
    if |s| == 1 {
      var i :| i in s;
      assert s == {i} + (s - {i});
      assert s == {i};
    }
  }

  /**
   A datable programme that fits no title near its date and whose number is a
   guess claims no number when the guess stands, and otherwise the special of
   its day, if there is one.
   */
  lemma ClaimBySpecial(idx: TVDBIndex, eps: seq<TVDBEpisode>, p: Programme, i: nat)
    requires Indexes(idx, eps) && Guessed(p) && forall m :: !TitleHit(idx, eps, p, m)
    ensures GuessStands(idx, p, (OwnIdentity(p).season, OwnIdentity(p).number)) ==> ClaimOf(idx, p, true).None?
    ensures !GuessStands(idx, p, (OwnIdentity(p).season, OwnIdentity(p).number))
            && SpecialOfDay(idx.lexicon, eps, p.episode, p.airDate, i)
            ==> i < |eps| && ClaimOf(idx, p, true) == Some(MatchOf(eps[i], ON_AIR_DATE))
  {
    hide Hit, TitleVerdictOf, Indexes, SpecialOn, TitleAnyDate, GuessStands, PositionGuess, SpecialOfDay, OwnIdentity, IsSpecial;
    NothingHits(idx, eps, p);
    GuessedMeans(p);
    SpecialOnExactly(idx, eps, p.episode, p.airDate);
  }

  // -- a title at any date --

  /** The list names the programme by a specific title, whenever it aired. */
  ghost predicate SpecificHit(idx: TVDBIndex, eps: seq<TVDBEpisode>, p: Programme, e: TVDBEpisode) {
    Specific(idx.lexicon, eps, idx.lexicon.candidates(p.episode), e)
  }

  lemma LongBeforeMeans(airDate: string, e: TVDBEpisode)
    requires Listed(e)
    ensures LongBefore(airDate, e) <==> ParseDay(airDate).Some? && ParseDay(airDate).value < DayOf(e) - 365
  {
    hide ParseDay;
  }

  /**
   A title at any date: none without a printed number, with one the list bears
   out, or with specific titles of no episode or of two; and else that episode,
   unless the programme aired more than a year before every episode so titled.
   */
  lemma AnyDateExactly(idx: TVDBIndex, eps: seq<TVDBEpisode>, p: Programme, e: TVDBEpisode)
    requires Indexes(idx, eps) && SpecificHit(idx, eps, p, e)
    ensures !OwnIdentity(p).Numbered? ==> TitleAnyDate(idx, p).None?
    ensures OwnIdentity(p).Numbered? && BornOut(idx, p, (OwnIdentity(p).season, OwnIdentity(p).number)) ==> TitleAnyDate(idx, p).None?
    ensures (exists f :: SpecificHit(idx, eps, p, f) && !SameNumber(e, f)) ==> TitleAnyDate(idx, p).None?
    ensures (forall f :: SpecificHit(idx, eps, p, f) ==> LongBefore(p.airDate, f)) ==> TitleAnyDate(idx, p).None?
    ensures OwnIdentity(p).Numbered? && !BornOut(idx, p, (OwnIdentity(p).season, OwnIdentity(p).number))
            && (forall f :: SpecificHit(idx, eps, p, f) ==> SameNumber(e, f) && !LongBefore(p.airDate, f))
            ==> TitleAnyDate(idx, p) == Some(MatchOf(e, OFF_WINDOW))
  {
    hide Indexes, BornOut, GivenNumber, LongBefore, Specific, IsSpecial, IsDateSubtitle, IdentityOf;
    GivenNumberIsPrinted(p.(tvdbNumbered := false));
    GivenIgnoresTVDB(p);
    var found := SpecificEpisodes(idx, idx.lexicon.candidates(p.episode));
    SpecificEpisodesAre(idx, eps, idx.lexicon.candidates(p.episode));
    OneNumberMeans(found, e);
  }

  lemma OneNumberMeans(found: seq<TVDBEpisode>, e: TVDBEpisode)
    requires e in found
    ensures OneNumber(EpisodeNumbers(found)) <==> forall f :: f in found ==> SameNumber(e, f)
    ensures found[0] in found
  {
    var ns := EpisodeNumbers(found);
    forall f | f in found
      ensures (f.season, f.episode) in ns
    {
      var i :| 0 <= i < |found| && found[i] == f;
      assert ns[i] == (f.season, f.episode);
    }
    forall n | n in ns
      ensures exists f :: f in found && n == (f.season, f.episode)
    {
      var i :| 0 <= i < |ns| && ns[i] == n;
      assert found[i] in found;
    }
    assert ns[0] == (found[0].season, found[0].episode) && found[0] in found;
  }

  /** With no title near its date and no special of its day, a datable programme claims what a title at any date gives, unless its guess stands; one that is not datable claims nothing. */
  lemma ClaimElse(idx: TVDBIndex, eps: seq<TVDBEpisode>, p: Programme)
    requires Indexes(idx, eps) && forall m :: !TitleHit(idx, eps, p, m)
    ensures ClaimOf(idx, p, false).None?
    ensures (Guessed(p) ==> !GuessStands(idx, p, (OwnIdentity(p).season, OwnIdentity(p).number))
                            && forall i: nat :: !SpecialOfDay(idx.lexicon, eps, p.episode, p.airDate, i))
            ==> ClaimOf(idx, p, true) == TitleAnyDate(idx, p)
  {
    hide Hit, TitleVerdictOf, Indexes, SpecialOn, TitleAnyDate, GuessStands, PositionGuess, SpecialOfDay, OwnIdentity, IsSpecial;
    NothingHits(idx, eps, p);
    GuessedMeans(p);
    SpecialOnExactly(idx, eps, p.episode, p.airDate);
  }
}
