/**
 What the matching functions of internal/newznab/tvdb.go find, in terms of the
 episode list itself: which episodes a title, an air date or a title at any
 date names, and when a programme aired outside the list's run.
 */
module Matching {
  import opened Text
  import opened Dates
  import opened Titles
  import opened TVDB

  /** A dated episode of the list with a candidate's title, aired within the window. */
  predicate TitledNear(lexicon: Lexicon, e: TVDBEpisode, c: Candidate, airDate: string) {
    Listed(e) && c.key != "" && lexicon.titleKey(e.title) == c.key && WithinMatchWindow(e.airDate, airDate)
  }

  function MatchOf(e: TVDBEpisode, strength: Strength): TVDBMatch {
    TVDBMatch(e.season, e.episode, strength)
  }

  /** m is what some episode of the list is matched as by some candidate title. */
  ghost predicate Hit(lexicon: Lexicon, eps: seq<TVDBEpisode>, cs: seq<Candidate>, airDate: string, m: TVDBMatch) {
    exists e, c :: e in eps && c in cs && TitledNear(lexicon, e, c, airDate) && m == MatchOf(e, CandidateStrength(c))
  }

  /** A dated episode of the list that a specific candidate title names, whenever it aired. */
  ghost predicate Specific(lexicon: Lexicon, eps: seq<TVDBEpisode>, cs: seq<Candidate>, e: TVDBEpisode) {
    e in eps && Listed(e) && exists c :: c in cs && c.key != "" && lexicon.specific(c.key) && lexicon.titleKey(e.title) == c.key
  }

  /** A special of the list that aired on the day. */
  predicate AiredOn(eps: seq<TVDBEpisode>, day: int, e: TVDBEpisode) {
    e in eps && Listed(e) && e.season == 0 && ParseDay(e.airDate) == Some(day)
  }

  predicate Named(lexicon: Lexicon, subtitle: string, e: TVDBEpisode) {
    lexicon.specific(lexicon.titleKey(e.title))
    && Contains(" " + lexicon.titleKey(subtitle) + " ", " " + lexicon.titleKey(e.title) + " ")
  }

  // ---- the lists behind the index ----

  lemma {:induction false} EpisodesTitledAre(lexicon: Lexicon, eps: seq<TVDBEpisode>, key: string)
    ensures forall e :: e in EpisodesTitled(lexicon, eps, key)
                        <==> e in eps && Listed(e) && key != "" && lexicon.titleKey(e.title) == key
  {
    hide Listed;
    if eps != [] {
      var init, last := eps[..|eps| - 1], eps[|eps| - 1];
      assert eps == init + [last];
      EpisodesTitledAre(lexicon, init, key);
    }
  }

  lemma TitledAsAre(idx: TVDBIndex, eps: seq<TVDBEpisode>, key: string)
    requires Indexes(idx, eps)
    ensures forall e :: e in TitledAs(idx, key) <==> e in eps && Listed(e) && key != "" && idx.lexicon.titleKey(e.title) == key
  {
    hide Listed;
    EpisodesTitledAre(idx.lexicon, eps, key);
    assert TitledAs(idx, key) == EpisodesTitled(idx.lexicon, eps, key);
  }

  lemma {:induction false} SpecialsAiredAre(eps: seq<TVDBEpisode>, day: int)
    ensures forall e :: e in SpecialsAired(eps, day) <==> AiredOn(eps, day, e)
  {
    hide Listed, ParseDay;
    if eps != [] {
      var init, last := eps[..|eps| - 1], eps[|eps| - 1];
      assert eps == init + [last];
      SpecialsAiredAre(init, day);
    }
  }

  lemma {:induction false} NamedInAre(lexicon: Lexicon, eps: seq<TVDBEpisode>, subtitle: string)
    ensures forall e :: e in NamedIn(lexicon, eps, " " + lexicon.titleKey(subtitle) + " ")
                        <==> e in eps && Named(lexicon, subtitle, e)
  {
    hide Contains;
    if eps != [] {
      var init, last := eps[..|eps| - 1], eps[|eps| - 1];
      assert eps == init + [last];
      NamedInAre(lexicon, init, subtitle);
    }
  }

  lemma {:induction false} HitsAmongAre(titled: seq<TVDBEpisode>, airDate: string, strength: Strength)
    ensures forall m :: m in HitsAmong(titled, airDate, strength)
                        <==> exists e :: e in titled && WithinMatchWindow(e.airDate, airDate) && m == MatchOf(e, strength)
  {
    hide WithinMatchWindow;
    if titled != [] {
      var init, last := titled[..|titled| - 1], titled[|titled| - 1];
      assert titled == init + [last];
      HitsAmongAre(init, airDate, strength);
    }
  }

  lemma {:induction false} TitleHitsAre(idx: TVDBIndex, eps: seq<TVDBEpisode>, cs: seq<Candidate>, airDate: string)
    requires Indexes(idx, eps)
    ensures forall m :: m in TitleHits(idx, cs, airDate) <==> Hit(idx.lexicon, eps, cs, airDate, m)
  {
    hide TitledNear, Indexes;
    if cs != [] {
      var init, c := cs[..|cs| - 1], cs[|cs| - 1];
      assert cs == init + [c];
      TitleHitsAre(idx, eps, init, airDate);
      HitsOfCandidate(idx, eps, c, airDate);
    }
  }

  lemma HitsOfCandidate(idx: TVDBIndex, eps: seq<TVDBEpisode>, c: Candidate, airDate: string)
    requires Indexes(idx, eps)
    ensures forall m :: m in HitsAmong(TitledAs(idx, c.key), airDate, CandidateStrength(c))
                        <==> exists e :: e in eps && TitledNear(idx.lexicon, e, c, airDate) && m == MatchOf(e, CandidateStrength(c))
  {
    hide Listed, WithinMatchWindow;
    TitledAsAre(idx, eps, c.key);
    HitsAmongAre(TitledAs(idx, c.key), airDate, CandidateStrength(c));
  }

  // ---- a title within the window ----

  lemma NoWindowWithoutDate(a: string, b: string)
    requires ParseDay(b).None?
    ensures !WithinMatchWindow(a, b)
  {
  }

  /**
   The title match, for any list: none when no dated episode within the window
   has a candidate title, one when all that have are of one number, which is
   then matched as strongly as any of them, and several otherwise.
   */
  lemma TitleVerdictMeans(idx: TVDBIndex, eps: seq<TVDBEpisode>, subtitle: string, airDate: string)
    requires Indexes(idx, eps)
    ensures var cs, v := idx.lexicon.candidates(subtitle), TitleVerdictOf(idx, subtitle, airDate);
            && (v.NoEpisode? <==> forall m :: !Hit(idx.lexicon, eps, cs, airDate, m))
            && (v.OneEpisode? ==>
                  && Hit(idx.lexicon, eps, cs, airDate, v.found)
                  && forall m :: Hit(idx.lexicon, eps, cs, airDate, m) ==>
                                   m.Number() == v.found.Number() && m.strength <= v.found.strength)
            && (v.SeveralEpisodes? ==>
                  exists m, n :: Hit(idx.lexicon, eps, cs, airDate, m) && Hit(idx.lexicon, eps, cs, airDate, n)
                                 && m.Number() != n.Number())
  {
    hide Indexes, ParseDay, WithinMatchWindow, Verdict, Hit;
    var cs := idx.lexicon.candidates(subtitle);
    TitleHitsAre(idx, eps, cs, airDate);
    if ParseDay(airDate).None? {
      NothingHit(idx.lexicon, eps, cs, airDate);
    } else {
      VerdictMeans(TitleHits(idx, cs, airDate));
    }
  }

  lemma NothingHit(lexicon: Lexicon, eps: seq<TVDBEpisode>, cs: seq<Candidate>, airDate: string)
    requires ParseDay(airDate).None?
    ensures forall m :: !Hit(lexicon, eps, cs, airDate, m)
  {
    hide ParseDay, WithinMatchWindow;
    forall e: TVDBEpisode
      ensures !WithinMatchWindow(e.airDate, airDate)
    {
      NoWindowWithoutDate(e.airDate, airDate);
    }
  }

  lemma VerdictMeans(hits: seq<TVDBMatch>)
    ensures var v := Verdict(hits);
            && (v.NoEpisode? <==> forall m :: m !in hits)
            && (v.OneEpisode? ==>
                  v.found in hits && forall m :: m in hits ==> m.Number() == v.found.Number() && m.strength <= v.found.strength)
            && (v.SeveralEpisodes? ==> exists m, n :: m in hits && n in hits && m.Number() != n.Number())
  {
    if hits != [] {
      assert hits[0] in hits;
      var ns := Numbers(hits);
      assert ns[0] == hits[0].Number();
      forall m | m in hits
        ensures m.Number() in ns
      {
        var i :| 0 <= i < |hits| && hits[i] == m;
        assert ns[i] == m.Number();
      }
      forall n | n in ns
        ensures exists m :: m in hits && m.Number() == n
      {
        var i :| 0 <= i < |ns| && ns[i] == n;
        assert hits[i] in hits;
      }
    }
  }

  // ---- an air date alone, and a title at any date ----

  /** A special claimed by its air date is a special of that very day, and the only one, or the only one the subtitle names. */
  lemma SpecialOnMeans(idx: TVDBIndex, eps: seq<TVDBEpisode>, subtitle: string, airDate: string)
    requires Indexes(idx, eps) && SpecialOn(idx, subtitle, airDate).Some?
    ensures ParseDay(airDate).Some?
    ensures var day := ParseDay(airDate).value;
            exists e ::
              && AiredOn(eps, day, e) && SpecialOn(idx, subtitle, airDate) == Some(MatchOf(e, ON_AIR_DATE))
              && ((forall f :: AiredOn(eps, day, f) ==> f == e)
                  || (Named(idx.lexicon, subtitle, e)
                      && forall f :: AiredOn(eps, day, f) && Named(idx.lexicon, subtitle, f) ==> f == e))
  {
    hide Listed, ParseDay, Named, AiredOn;
    var day := ParseDay(airDate).value;
    var aired := SpecialsOn(idx, day);
    assert aired == SpecialsAired(eps, day);
    SpecialsAiredAre(eps, day);
    NamedInAre(idx.lexicon, aired, subtitle);
    var chosen := if |aired| > 1 then NamedIn(idx.lexicon, aired, " " + idx.lexicon.titleKey(subtitle) + " ") else aired;
    var e := chosen[0];
    assert e in chosen && forall f :: f in chosen ==> f == e;
    assert e in aired;
  }

  lemma {:induction false} SpecificEpisodesAre(idx: TVDBIndex, eps: seq<TVDBEpisode>, cs: seq<Candidate>)
    requires Indexes(idx, eps)
    ensures forall e :: e in SpecificEpisodes(idx, cs) <==> Specific(idx.lexicon, eps, cs, e)
  {
    hide Listed, Indexes, TitledAs;
    if cs != [] {
      var init, c := cs[..|cs| - 1], cs[|cs| - 1];
      assert cs == init + [c];
      SpecificEpisodesAre(idx, eps, init);
      TitledAsAre(idx, eps, c.key);
    }
  }

  /**
   A number claimed outside the window is that of every episode of the list a
   specific title of the programme names, for a programme that goes out with a
   number the list does not bear out.
   */
  lemma AnyDateMeans(idx: TVDBIndex, eps: seq<TVDBEpisode>, p: Programme)
    requires Indexes(idx, eps) && TitleAnyDate(idx, p).Some?
    ensures var m, cs := TitleAnyDate(idx, p).value, idx.lexicon.candidates(p.episode);
            && m.strength == OFF_WINDOW
            && GivenNumber(p).Some? && !BornOut(idx, p, GivenNumber(p).value)
            && (exists e :: Specific(idx.lexicon, eps, cs, e) && m == MatchOf(e, OFF_WINDOW) && !LongBefore(p.airDate, e))
            && (forall e :: Specific(idx.lexicon, eps, cs, e) ==> (e.season, e.episode) == m.Number())
  {
    hide Indexes, BornOut, GivenNumber, LongBefore, Specific;
    var cs := idx.lexicon.candidates(p.episode);
    var found := SpecificEpisodes(idx, cs);
    SpecificEpisodesAre(idx, eps, cs);
    assert EpisodeNumbers(found) != [];
    assert found[0] in found && EpisodeNumbers(found)[0] == (found[0].season, found[0].episode);
    forall e | e in found
      ensures (e.season, e.episode) in EpisodeNumbers(found)
    {
      var i :| 0 <= i < |found| && found[i] == e;
      assert EpisodeNumbers(found)[i] == (e.season, e.episode);
    }
  }

  // ---- every claim is a listed number ----

  /** The list has a dated episode of that number, and numbers its episodes from 1. */
  ghost predicate ListedAt(eps: seq<TVDBEpisode>, n: (int, int)) {
    exists e :: e in eps && Listed(e) && (e.season, e.episode) == n
  }

  lemma HitIsListed(lexicon: Lexicon, eps: seq<TVDBEpisode>, cs: seq<Candidate>, airDate: string, m: TVDBMatch)
    requires Hit(lexicon, eps, cs, airDate, m)
    ensures ListedAt(eps, m.Number())
  {
    hide Listed, WithinMatchWindow;
  }

  lemma SpecialIsListed(idx: TVDBIndex, eps: seq<TVDBEpisode>, subtitle: string, airDate: string)
    requires Indexes(idx, eps) && SpecialOn(idx, subtitle, airDate).Some?
    ensures ListedAt(eps, SpecialOn(idx, subtitle, airDate).value.Number())
  {
    hide Listed, ParseDay, Named, Indexes, SpecialOn;
    SpecialOnMeans(idx, eps, subtitle, airDate);
  }

  lemma AnyDateIsListed(idx: TVDBIndex, eps: seq<TVDBEpisode>, p: Programme)
    requires Indexes(idx, eps) && TitleAnyDate(idx, p).Some?
    ensures ListedAt(eps, TitleAnyDate(idx, p).value.Number())
  {
    hide Listed, Indexes, TitleAnyDate, LongBefore, BornOut, GivenNumber;
    AnyDateMeans(idx, eps, p);
  }

  /** Whichever way a programme claims a number, the list has an episode of it. */
  lemma ClaimIsListed(idx: TVDBIndex, eps: seq<TVDBEpisode>, p: Programme, datable: bool)
    requires Indexes(idx, eps) && ClaimOf(idx, p, datable).Some?
    ensures ListedAt(eps, ClaimOf(idx, p, datable).value.Number())
  {
    hide Indexes, ListedAt, TitleVerdictOf, SpecialOn, TitleAnyDate, PositionGuess, GuessStands, Hit;
    var m := ClaimOf(idx, p, datable).value;
    if TitleVerdictOf(idx, p.episode, p.airDate).OneEpisode? {
      TitleVerdictMeans(idx, eps, p.episode, p.airDate);
      HitIsListed(idx.lexicon, eps, idx.lexicon.candidates(p.episode), p.airDate, m);
    } else if PositionGuess(p).Some? && SpecialOn(idx, p.episode, p.airDate) == Some(m) {
      SpecialIsListed(idx, eps, p.episode, p.airDate);
    } else {
      AnyDateIsListed(idx, eps, p);
    }
  }

  // ---- the list's run ----

  /** No dated episode is as old as Go's zero time, 1 January of the year 1. */
  predicate AfterYearOne(eps: seq<TVDBEpisode>) {
    forall e :: e in eps && Listed(e) ==> DayOf(e) > ZERO_DAY
  }

  lemma {:induction false} NoZeroDay(eps: seq<TVDBEpisode>)
    requires AfterYearOne(eps)
    ensures SinceZeroDay(eps) == eps
  {
    hide ParseDay;
    if eps != [] {
      var init, last := eps[..|eps| - 1], eps[|eps| - 1];
      assert eps == init + [last];
      NoZeroDay(init);
    }
  }

  /** A programme aired outside the run when every dated episode of the list is more than a year later, or every one ten years earlier. */
  lemma BeyondRunMeans(idx: TVDBIndex, eps: seq<TVDBEpisode>, airDate: string)
    requires Indexes(idx, eps) && AfterYearOne(eps)
    ensures BeyondRun(idx, airDate) <==>
              && ParseDay(airDate).Some?
              && (exists e :: e in eps && Listed(e))
              && ((forall e :: e in eps && Listed(e) ==> ParseDay(airDate).value < DayOf(e) - BEFORE_RUN)
                  || (forall e :: e in eps && Listed(e) ==> ParseDay(airDate).value > DayOf(e) + AFTER_RUN))
  {
    hide ParseDay;
    NoZeroDay(eps);
    assert Spans(idx, eps);
  }

  lemma {:induction false} LastNumberedIsListed(eps: seq<TVDBEpisode>, n: (int, int))
    ensures LastNumbered(eps, n).Some? ==>
              var e := LastNumbered(eps, n).value; e in eps && Listed(e) && (e.season, e.episode) == n
    ensures LastNumbered(eps, n).Some? <==> ListedAt(eps, n)
  {
    hide Listed;
    if eps != [] {
      var init, last := eps[..|eps| - 1], eps[|eps| - 1];
      assert eps == init + [last];
      LastNumberedIsListed(init, n);
    }
  }

  /** A number is contradicted only by a dated episode of the list at that very number, with another title and aired more than a week away. */
  lemma ContradictedMeans(idx: TVDBIndex, eps: seq<TVDBEpisode>, p: Programme, showMatched: bool)
    requires Indexes(idx, eps) && Contradicts(idx, p, showMatched)
    ensures GivenNumber(p).Some? && ParseDay(p.airDate).Some?
    ensures exists e ::
              && e in eps && Listed(e) && (e.season, e.episode) == GivenNumber(p).value
              && (idx.lexicon.titleKey(p.episode) == "" || idx.lexicon.titleKey(p.episode) != idx.lexicon.titleKey(e.title))
              && !(-MATCH_WINDOW <= DayOf(e) - ParseDay(p.airDate).value <= MATCH_WINDOW)
  {
    hide Listed, ParseDay, PositionGuess, GivenNumber, IsSpecial, AssumedNumber, BeyondRun;
    var n := GivenNumber(p).value;
    assert EpisodeAt(idx, n) == LastNumbered(eps, n);
    LastNumberedIsListed(eps, n);
    ListedIsDated(EpisodeAt(idx, n).value);
  }

  lemma ListedIsDated(e: TVDBEpisode)
    requires Listed(e)
    ensures ParseDay(e.airDate).Some?
  {
  }
}
