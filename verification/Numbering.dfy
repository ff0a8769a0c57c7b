/**
 From TheTVDB's episode list to the search that finds the release: the number
 resolve gives a programme is a listed episode's, its title is read back as
 that number, and the search for the number finds it.
 */
module Numbering {
  import opened Text
  import opened Parse
  import opened Titles
  import opened RoundTrip
  import opened TVDB
  import opened Matching
  import opened Doubts
  import opened Arbitration
  import opened SearchFilter
  import opened Browse

  // ---- the release of a numbered programme ----

  /** A conversion of an iBL result that takes a listed number is one of the programmes the search filter is proved for. */
  lemma NumberedIsReachable(r: IBLResult, eps: seq<TVDBEpisode>, m: TVDBMatch)
    requires ListedAt(eps, m.Number())
    ensures Reachable(Apply(IBLResultToProgramme(r), m))
  {
    var p := Apply(IBLResultToProgramme(r), m);
    assert IBLResultToProgramme(r).(name := p.name) == IBLResultToProgramme(r);
  }

  /**
   An iBL result with an episode number but no series is taken as Series 1, and
   the number that gives it is doubted: whenever the list's episode there has
   another title and aired more than a week away, and only then.
   */
  lemma AssumedSeriesIsDoubted(r: IBLResult, idx: TVDBIndex, eps: seq<TVDBEpisode>, showMatched: bool)
    requires Indexes(idx, eps) && AfterYearOne(eps) && r.series == 0 && r.episodeNum > 0
    ensures var p := IBLResultToProgramme(r);
            && IdentityOf(p, None) == Numbered(1, r.episodeNum, r.subtitle, TierFull)
            && (Contradicts(idx, p, showMatched) <==> OtherEpisodeAt(idx.lexicon, eps, p, (1, r.episodeNum)))
  {
    hide Indexes, Contradicts, OtherEpisodeAt, IsSpecial, IsDateSubtitle, AfterYearOne;
    var p := IBLResultToProgramme(r);
    assert p.(tvdbNumbered := false) == p;
    ContradictsMeans(idx, eps, p, showMatched);
  }

  predicate ForcedToDate(p: Programme, o: Option<ShowOverride>) {
    o.Some? && o.value.forceDateBased && p.airDate != ""
  }

  /**
   From list to release: whichever programme wins a number of a list, the list
   has an episode of that number, the programme's title reads back as exactly
   it under every override that does not force a date, and the release answers
   the search for it.
   */
  lemma WinnerGoesOutAsListed(idx: TVDBIndex, eps: seq<TVDBEpisode>, c: Contest, r: IBLResult,
                              o: Option<ShowOverride>, quality: string)
    requires Indexes(idx, eps) && c.idx == idx
    requires Wins(c, IBLResultToProgramme(r))
    requires Unmarked(IBLResultToProgramme(r), o) && !HasMarker(quality)
    requires !ForcedToDate(IBLResultToProgramme(r), o)
    ensures var m := Claimed(c, IBLResultToProgramme(r)).value;
            var p := Apply(IBLResultToProgramme(r), m);
            && ListedAt(eps, m.Number())
            && (InMarkerRange(m.season, m.episode) ==>
                  && NumberedAs(ParseTitle(GenerateTitle(p, quality, o).0), m.season, m.episode)
                  && Matches(p, o, true, "", m.season, m.episode))
  {
    hide Claimed, Indexes, ListedAt, Unmarked, HasMarker, ParseTitle, GenerateTitle, Matches, Reachable, ReadBack, NameUnmarked;
    var m := Claimed(c, IBLResultToProgramme(r)).value;
    var p := Apply(IBLResultToProgramme(r), m);
    assert ListedAt(eps, m.Number()) by { ClaimedIsListed(eps, c, IBLResultToProgramme(r)); }
    NumberedIsReachable(r, eps, m);
    UnmarkedStays(IBLResultToProgramme(r), m, o);
    if InMarkerRange(m.season, m.episode) {
      NumberPrinted(IBLResultToProgramme(r), m, o);
      assert p.(name := p.name) == p;
      TitleReadBack(p, o, p.name, quality);
      ReachableNumbers(p);
      TitleAnswersItsSearch(p, o, true);
    }
  }

  lemma ClaimedIsListed(eps: seq<TVDBEpisode>, c: Contest, p: Programme)
    requires Indexes(c.idx, eps) && Claimed(c, p).Some?
    ensures ListedAt(eps, Claimed(c, p).value.Number())
  {
    hide Indexes, ListedAt, ClaimOf;
    ClaimIsListed(c.idx, eps, p, c.datable(p));
  }

  lemma NumberPrinted(p: Programme, m: TVDBMatch, o: Option<ShowOverride>)
    requires !ForcedToDate(p, o) && InMarkerRange(m.season, m.episode)
    ensures ReadBack(Apply(p, m), o) == (m.season, m.episode)
  {
    hide IsSpecial, IsDateSubtitle;
  }

  lemma UnmarkedStays(p: Programme, m: TVDBMatch, o: Option<ShowOverride>)
    requires Unmarked(p, o)
    ensures Unmarked(Apply(p, m), o) && NameUnmarked(Apply(p, m).name)
  {
    hide NameUnmarked, SubtitleUnmarked, AirDateUnmarked;
  }

  /** In the feed, a numbered item carries an episode number of the list of the one series that takes it. */
  lemma FeedNumberIsListed(b: Poll, lists: map<string, seq<TVDBEpisode>>, before: Item, after: Item, m: SeriesMapping)
    requires Outcome(b, before, after) && m in b.mappings && Takes(b, before.prog, m)
    requires forall id :: id in b.indexes ==> id in lists && Indexes(b.indexes[id], lists[id])
    ensures after.prog.tvdbNumbered && !after.contradicted
    ensures ListedAt(lists[m.tvdbId], (after.prog.series, after.prog.episodeNum))
  {
    hide Indexes, ListedAt, Claimed, Prevails;
    assert IsNumbered(b, before.prog);
    var n :| n in b.mappings && Takes(b, before.prog, n)
             && after.prog == Apply(before.prog, Claimed(ContestFor(b, n), before.prog).value);
    OneTaker(b, before.prog, m, n);
    ClaimedIsListed(lists[m.tvdbId], ContestFor(b, m), before.prog);
  }
}
