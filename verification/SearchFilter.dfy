/**
 Which searches a programme answers, and the number its release then carries:
 internal/newznab/search.go.
 */
module SearchFilter {
  import opened Text
  import opened Sanitise
  import opened Parse
  import opened Titles
  import opened RoundTrip

  /** bbc.IBLResult: the fields IBLResultToProgramme takes the identity from. */
  datatype IBLResult = IBLResult(
    pid: string,
    title: string,
    subtitle: string,
    series: nat,
    episodeNum: nat,
    episodeNumAssigned: bool,
    position: int,
    airDate: string)

  function IBLResultToProgramme(r: IBLResult): Programme {
    var series := if r.series == 0 && r.episodeNum > 0 then 1 else r.series;
    Programme(r.pid, r.title, r.subtitle, series, series != r.series, r.episodeNum, r.episodeNumAssigned,
              r.position, r.airDate, false)
  }

  /**
   The programmes the filter sees: an iBL result as converted, or one that also
   took TheTVDB's number, whose episodes start at 1 (and, for a one-off, its own
   title as subtitle). The name may have been rewritten.
   */
  ghost predicate Reachable(p: Programme) {
    exists r ::
      var q := IBLResultToProgramme(r).(name := p.name);
      || p == q
      || (p.episodeNum >= 1 && p == q.(series := p.series, episodeNum := p.episodeNum, episode := p.episode,
                                       tvdbNumbered := true))
  }

  /** All the numbering of a reachable programme that the filter relies on. */
  lemma ReachableNumbers(p: Programme)
    requires Reachable(p)
    ensures p.tvdbNumbered ==> p.episodeNum >= 1
    ensures !p.tvdbNumbered ==> 0 <= p.series && 0 <= p.episodeNum && (p.episodeNum > 0 ==> p.series > 0)
  {
  }

  const PROBE_QUALITY := "720p"
  const NO_SEASON_FILTER := -1

  /** overridesNumbering: the override changes the title other than by its name. */
  predicate OverridesNumbering(p: Programme, o: Option<ShowOverride>) {
    && o.Some?
    && GenerateTitle(p, PROBE_QUALITY, Some(o.value.(customName := ""))).0 != GenerateTitle(p, PROBE_QUALITY, None).0
  }

  /** emittedNumber. */
  function EmittedNumber(p: Programme, o: Option<ShowOverride>): Option<(int, int)> {
    var (title, tier) := GenerateTitle(p, PROBE_QUALITY, o);
    if tier != TierFull && tier != TierPosition then None
    else Some((ParseTitle(title).season, ParseTitle(title).episode))
  }

  /** A programme with no BBC numbers but an air date. */
  predicate InHatch(p: Programme) {
    p.series == 0 && p.episodeNum == 0 && p.airDate != ""
  }

  function Itoa(n: int): string {
    if n < 0 then "-" + Decimal(-n) else Decimal(n)
  }

  predicate NumbersMatch(series: int, number: int, filterSeason: int, filterEp: int) {
    && (filterSeason != NO_SEASON_FILTER ==> series == filterSeason)
    && (filterEp > 0 ==> number == filterEp)
  }

  /** matchesSearchFilterFor; nameMatches is the answer of its name comparison. */
  predicate Matches(p: Programme, o: Option<ShowOverride>, nameMatches: bool, filterDate: string,
                    filterSeason: int, filterEp: int)
  {
    if !nameMatches then false
    else if filterDate != "" then p.airDate == filterDate
    else if InHatch(p) || OverridesNumbering(p, o) then
      var emitted := EmittedNumber(p, o);
      if emitted.Some? && emitted.value.1 > 0 then
        NumbersMatch(emitted.value.0, emitted.value.1, filterSeason, filterEp)
      else if !InHatch(p) then
        NumbersMatch(p.series, p.episodeNum, filterSeason, filterEp)
      else if emitted.Some? then
        filterSeason == NO_SEASON_FILTER && filterEp <= 0
      else
        filterSeason < 1900 || Itoa(filterSeason) <= p.airDate
    else
      NumbersMatch(p.series, p.episodeNum, filterSeason, filterEp)
  }

  /** unnumberedHatch. */
  predicate UnnumberedHatch(p: Programme, o: Option<ShowOverride>) {
    InHatch(p) && EmittedNumber(p, o).None?
  }

  /** Nothing printed besides the number carries an SxxExx marker of its own. */
  predicate Unmarked(p: Programme, o: Option<ShowOverride>) {
    && NameUnmarked(p.name)
    && (o.Some? ==> NameUnmarked(o.value.customName))
    && SubtitleUnmarked(p.episode)
    && AirDateUnmarked(p.airDate)
  }

  /** The number a title under the override is read back with. */
  function ReadBack(p: Programme, o: Option<ShowOverride>): (int, int) {
    var id := IdentityOf(p, o);
    if Readable(id) then (id.season, id.number) else (0, 0)
  }

  lemma EmptyUnmarked()
    ensures SubtitleUnmarked("") && NameUnmarked("")
  {
    hide HasMarker;
    CleanIsUnchanged("");
    NoSNoMarker("");
  }

  lemma TitleReadBack(p: Programme, o: Option<ShowOverride>, name: string, quality: string)
    requires Unmarked(p, o) && NameUnmarked(name) && !HasMarker(quality)
    ensures var title := GenerateTitle(p.(name := name), quality, o).0;
            NumberedAs(ParseTitle(title), ReadBack(p, o).0, ReadBack(p, o).1)
  {
    hide SubtitleUnmarked, NameUnmarked, AirDateUnmarked, HasMarker, ParseTitle, Print, IsSpecial, IsDateSubtitle;
    var q := p.(name := name);
    assert IdentityOf(q, o) == IdentityOf(p, o);
    EmptyUnmarked();
    PrintedNumberReadBack(NameUnder(q, o), IdentityOf(p, o), quality);
  }

  lemma ProbeQualityUnmarked()
    ensures !HasMarker(PROBE_QUALITY)
  {
    NoSNoMarker(PROBE_QUALITY);
  }

  /** An override that leaves the probe title alone leaves the number that is read back alone. */
  lemma SameTitleSameNumber(p: Programme, o: Option<ShowOverride>)
    requires Unmarked(p, o) && !OverridesNumbering(p, o)
    ensures ReadBack(p, o) == ReadBack(p, None)
  {
    hide NameUnmarked, SubtitleUnmarked, AirDateUnmarked, HasMarker, ParseTitle, Print, IsSpecial, IsDateSubtitle;
    if o.Some? {
      var plain := Some(o.value.(customName := ""));
      assert IdentityOf(p, plain) == IdentityOf(p, o);
      EmptyUnmarked();
      ProbeQualityUnmarked();
      TitleReadBack(p, plain, p.name, PROBE_QUALITY);
      TitleReadBack(p, None, p.name, PROBE_QUALITY);
      assert p.(name := p.name) == p;
    }
  }

  lemma EmittedNumberIsReadBack(p: Programme, o: Option<ShowOverride>)
    requires Unmarked(p, o)
    ensures EmittedNumber(p, o) == if IdentityOf(p, o).Numbered? then Some(ReadBack(p, o)) else None
  {
    hide NameUnmarked, SubtitleUnmarked, AirDateUnmarked, HasMarker, ParseTitle, Print, IsSpecial, IsDateSubtitle;
    ProbeQualityUnmarked();
    TitleReadBack(p, o, p.name, PROBE_QUALITY);
    assert p.(name := p.name) == p;
    TierTellsNumbered(p, o);
  }

  lemma TierTellsNumbered(p: Programme, o: Option<ShowOverride>)
    ensures TierOf(IdentityOf(p, o)) in {TierFull, TierPosition} <==> IdentityOf(p, o).Numbered?
    ensures IdentityOf(p, o).Numbered? && Reachable(p) ==> IdentityOf(p, o).number >= 1
  {
    hide IsSpecial, IsDateSubtitle, SpecialNumber;
  }

  /**
   A release never answers a search for an episode it is not. Whatever
   programme the filter accepts for season s and episode e, under any override
   and any name its title goes out with, the title is read back as exactly
   season s, episode e, or as carrying no season and episode at all.
   */
  lemma SearchAgreesWithTitle(p: Programme, o: Option<ShowOverride>, nameMatches: bool, s: int, e: int,
                              name: string, quality: string)
    requires Reachable(p) && Unmarked(p, o) && NameUnmarked(name) && !HasMarker(quality)
    requires 0 <= s < 1900 && e >= 1
    requires Matches(p, o, nameMatches, "", s, e)
    ensures var id := ParseTitle(GenerateTitle(p.(name := name), quality, o).0);
            NumberedAs(id, s, e) || Unnumbered(id)
  {
    hide Unmarked, NameUnmarked, HasMarker, ParseTitle, Print, OverridesNumbering, EmittedNumber, Reachable;
    ReachableNumbers(p);
    TierTellsNumbered(p, o);
    TitleReadBack(p, o, name, quality);
    EmittedNumberIsReadBack(p, o);
    if !OverridesNumbering(p, o) {
      SameTitleSameNumber(p, o);
      OwnNumberIsPrinted(p);
    }
  }

  /** With a series and an episode number of its own, a programme goes out with them. */
  lemma OwnNumberIsPrinted(p: Programme)
    ensures p.tvdbNumbered || (p.series > 0 && p.episodeNum > 0)
            ==> IdentityOf(p, None) == Numbered(p.series, p.episodeNum, p.episode, TierFull)
  {
    hide IsSpecial, IsDateSubtitle;
  }

  /** The programme's number is BBC's or TheTVDB's own, or an override's, or nothing else competes with its guess. */
  predicate Answerable(p: Programme, o: Option<ShowOverride>) {
    p.tvdbNumbered || (p.series > 0 && p.episodeNum > 0) || InHatch(p) || OverridesNumbering(p, o)
  }

  /**
   The other direction, exactly: a release whose title reads back as season s,
   episode e answers the search for it if and only if its name matches and its
   number is not a bare guess on a programme outside the escape hatch.
   */
  lemma TitleAnswersItsSearch(p: Programme, o: Option<ShowOverride>, nameMatches: bool)
    requires Reachable(p) && Unmarked(p, o)
    requires ReadBack(p, o).1 >= 1
    ensures Matches(p, o, nameMatches, "", ReadBack(p, o).0, ReadBack(p, o).1)
            <==> nameMatches && Answerable(p, o)
  {
    hide Unmarked, HasMarker, ParseTitle, Print, OverridesNumbering, EmittedNumber, Reachable;
    ReachableNumbers(p);
    TierTellsNumbered(p, o);
    EmittedNumberIsReadBack(p, o);
    if !OverridesNumbering(p, o) {
      SameTitleSameNumber(p, o);
      OwnNumberIsPrinted(p);
    }
  }

  /**
   Every search, exactly. What a reachable programme answers under any override
   is decided by the number its title is read back with, where that is what it
   answers for; else by the numbers it has; and in the escape hatch, for a
   title by date, by the year.
   */
  lemma AnswersExactly(p: Programme, o: Option<ShowOverride>, nameMatches: bool, filterSeason: int, filterEp: int)
    requires Reachable(p) && Unmarked(p, o)
    ensures Matches(p, o, nameMatches, "", filterSeason, filterEp) <==>
              && nameMatches
              && if ReadBack(p, o).1 >= 1 && Answerable(p, o) then
                   NumbersMatch(ReadBack(p, o).0, ReadBack(p, o).1, filterSeason, filterEp)
                 else if !InHatch(p) then
                   NumbersMatch(p.series, p.episodeNum, filterSeason, filterEp)
                 else if IdentityOf(p, o).Numbered? then
                   filterSeason == NO_SEASON_FILTER && filterEp <= 0
                 else
                   filterSeason < 1900 || Itoa(filterSeason) <= p.airDate
  {
    hide Unmarked, HasMarker, ParseTitle, Print, OverridesNumbering, EmittedNumber, Reachable, Itoa, IdentityOf;
    ReachableNumbers(p);
    TierTellsNumbered(p, o);
    EmittedNumberIsReadBack(p, o);
    if !OverridesNumbering(p, o) {
      SameTitleSameNumber(p, o);
      OwnNumberIsPrinted(p);
    }
  }

  /** The guess that fails: an undated programme known only by its position goes out as S01E04 and does not answer S01E04. */
  lemma UndatedGuessAnswersNothing()
    ensures var p := IBLResultToProgramme(IBLResult("b0", "Show", "", 0, 0, false, 4, ""));
            ReadBack(p, None) == (1, 4) && !Matches(p, None, true, "", 1, 4)
  {
    var p := IBLResultToProgramme(IBLResult("b0", "Show", "", 0, 0, false, 4, ""));
    assert forall word, i: nat :: |word| > 0 ==> !WordAt("", i, word);
    assert !IsSpecial(p.episode);
  }

  // ---- what an override moves ----

  /** The season and episode the override makes of BBC's numbers. */
  function Moved(p: Programme, o: ShowOverride): (int, int) {
    ((if o.forceSeriesNum > 0 then o.forceSeriesNum else p.series) + o.seriesOffset, p.episodeNum + o.episodeOffset)
  }

  /**
   Whatever override it has, an episode with a number of its own answers one
   episode search and no other: that for the number its title is read back
   with, or, when the title has no number to read, that for its own.
   */
  lemma NumberedEpisodeAnswersOneSearch(p: Programme, o: Option<ShowOverride>, s: int, e: int)
    requires Reachable(p) && Unmarked(p, o)
    requires p.tvdbNumbered || (p.series > 0 && p.episodeNum > 0)
    requires s >= 0 && e >= 1
    ensures Matches(p, o, true, "", s, e) <==>
              (s, e) == if ReadBack(p, o).1 >= 1 then ReadBack(p, o) else (p.series, p.episodeNum)
  {
    hide Unmarked, OverridesNumbering, EmittedNumber, Reachable, IdentityOf, Matches, ReadBack;
    ReachableNumbers(p);
    AnswersExactly(p, o, true, s, e);
  }

  /**
   An override moves an episode to another search: with a Series Offset of 1,
   Series 2 Episode 3 answers S03E03 and no longer S02E03. A moved number that
   is positive but has no room in the marker leaves it the search it answered
   before. A moved number that is not positive is no number: the episode goes
   out by the rest of the tier chain, an ordinary one by its position.
   */
  lemma OverrideMovesTheSearch(p: Programme, o: ShowOverride, quality: string, s: int, e: int)
    requires Reachable(p) && Unmarked(p, Some(o)) && !HasMarker(quality)
    requires !p.tvdbNumbered && p.series > 0 && p.episodeNum > 0
    requires !o.forceDateBased && !o.forcePosition
    requires s >= 0 && e >= 1
    ensures Moved(p, o).0 > 0 && Moved(p, o).1 > 0 ==>
              if Moved(p, o).0 <= 99 && Moved(p, o).1 <= 9999 then
                && NumberedAs(ParseTitle(GenerateTitle(p, quality, Some(o)).0), Moved(p, o).0, Moved(p, o).1)
                && (Matches(p, Some(o), true, "", s, e) <==> (s, e) == Moved(p, o))
              else
                && Unnumbered(ParseTitle(GenerateTitle(p, quality, Some(o)).0))
                && (Matches(p, Some(o), true, "", s, e) <==> (s, e) == (p.series, p.episodeNum))
    ensures Matches(p, Some(o), true, "", s, e) <==>
              (s, e) == if ReadBack(p, Some(o)).1 >= 1 then ReadBack(p, Some(o)) else (p.series, p.episodeNum)
    ensures !(Moved(p, o).0 > 0 && Moved(p, o).1 > 0) && !IsSpecial(p.episode) && !IsDateSubtitle(p.episode) ==>
              (Matches(p, Some(o), true, "", s, e) <==> (s, e) == ByPosition(p, o))
  {
    hide Unmarked, HasMarker, ParseTitle, Print, OverridesNumbering, EmittedNumber, Reachable, NameUnmarked, Matches, IdentityOf;
    MovedIsPrinted(p, o);
    assert NameUnmarked(p.name) by { UnmarkedName(p, Some(o)); }
    assert p.(name := p.name) == p;
    TitleReadBack(p, Some(o), p.name, quality);
    NumberedEpisodeAnswersOneSearch(p, Some(o), s, e);
  }

  lemma UnmarkedName(p: Programme, o: Option<ShowOverride>)
    requires Unmarked(p, o)
    ensures NameUnmarked(p.name)
  {
  }

  /** The search an episode answers whose number an override took away: its position's, if it has one the marker has room for. */
  function ByPosition(p: Programme, o: ShowOverride): (int, int) {
    var series := if o.forceSeriesNum > 0 then o.forceSeriesNum else 1;
    if InMarkerRange(series, p.position) && p.position > 0 then (series, p.position) else (p.series, p.episodeNum)
  }

  lemma MovedIsPrinted(p: Programme, o: ShowOverride)
    requires !p.tvdbNumbered && !o.forceDateBased && !o.forcePosition
    ensures var (series, number) := Moved(p, o);
            && (series > 0 && number > 0 ==> IdentityOf(p, Some(o)) == Numbered(series, number, p.episode, TierFull))
            && (series > 0 && number > 0 && series <= 99 && number <= 9999 ==> ReadBack(p, Some(o)) == (series, number))
            && (series > 0 && number > 0 && !(series <= 99 && number <= 9999) ==> ReadBack(p, Some(o)) == (0, 0))
            && (!(series > 0 && number > 0) && !IsSpecial(p.episode) && !IsDateSubtitle(p.episode) ==>
                  ByPosition(p, o) == if ReadBack(p, Some(o)).1 >= 1 then ReadBack(p, Some(o)) else (p.series, p.episodeNum))
  {
    hide IsSpecial, IsDateSubtitle;
  }

  /** The offset that takes a number away: Series 2 Episode 3 with an Episode Offset of -3 goes out by its position and answers S01E07. */
  lemma NegativeOffsetAnswersPosition()
    ensures var p := IBLResultToProgramme(IBLResult("b0", "Quiz", "", 2, 3, false, 7, ""));
            var o := Some(ShowOverride(false, 0, false, 0, -3, ""));
            Moved(p, o.value) == (2, 0) && Matches(p, o, true, "", 1, 7) && !Matches(p, o, true, "", 2, 3)
  {
    hide HasMarker, SanitiseForTitle, Matches;
    var p := IBLResultToProgramme(IBLResult("b0", "Quiz", "", 2, 3, false, 7, ""));
    var o := Some(ShowOverride(false, 0, false, 0, -3, ""));
    QuizUnmarked();
    EmptyUnmarked();
    assert Unmarked(p, o) by { NoSNoMarker(""); }
    assert p == IBLResultToProgramme(IBLResult("b0", "Quiz", "", 2, 3, false, 7, "")).(name := p.name);
    assert !IsSpecial(p.episode) by { assert forall word, i: nat :: |word| > 0 ==> !WordAt("", i, word); }
    assert ReadBack(p, o) == (1, 7);
    NumberedEpisodeAnswersOneSearch(p, o, 1, 7);
    NumberedEpisodeAnswersOneSearch(p, o, 2, 3);
  }

  lemma QuizUnmarked()
    ensures NameUnmarked("Quiz")
  {
    CleanIsUnchanged("Quiz");
    NoSNoMarker("Quiz");
  }

  /** Forcing positions sends an ordinary episode out by its position, in Series 1 or the forced one, and that is the search it answers. */
  lemma ForcedPositionMovesTheSearch(p: Programme, o: ShowOverride, s: int, e: int)
    requires Reachable(p) && Unmarked(p, Some(o))
    requires !p.tvdbNumbered && p.series > 0 && p.episodeNum > 0 && 0 < p.position <= 9999
    requires !IsSpecial(p.episode) && !IsDateSubtitle(p.episode)
    requires o.forcePosition && !o.forceDateBased && o.episodeOffset == 0 && o.forceSeriesNum <= 99
    requires s >= 0 && e >= 1
    ensures Matches(p, Some(o), true, "", s, e)
            <==> (s, e) == (if o.forceSeriesNum > 0 then o.forceSeriesNum else 1, p.position)
  {
    hide Unmarked, HasMarker, ParseTitle, Print, OverridesNumbering, EmittedNumber, Reachable, IsSpecial, IsDateSubtitle;
    EmittedNumberIsReadBack(p, Some(o));
    if !OverridesNumbering(p, Some(o)) {
      SameTitleSameNumber(p, Some(o));
      OwnNumberIsPrinted(p);
    }
  }

  // ---- the search for a year ----

  /** A programme that goes out by its date answers the search whose season is a year, whatever the episode, exactly when that is its year. */
  lemma YearSearchFindsItsYear(p: Programme, o: Option<ShowOverride>, year: int, e: int)
    requires UnnumberedHatch(p, o) && IsoDate(p.airDate)
    requires 1900 <= year <= 9999
    ensures Matches(p, o, true, "", year, e) <==> Value(p.airDate[..4]) == year
  {
    hide EmittedNumber, OverridesNumbering;
    var y := Decimal(year);
    DecimalLength(year);
    ValueOfDecimal(year);
    LexIsNumeric(y, p.airDate[..4]);
    assert y <= p.airDate <==> y == p.airDate[..4];
  }

  // ---- the search for a day ----

  /** parseDailySearchDate: the day a season of four digits and an episode of month and day ask for, or "". */
  function ParseDailySearchDate(season: string, ep: string): string {
    if |season| != 4 || Atoi(season).None? || !(1900 <= Atoi(season).value <= 2100) then ""
    else
      match Cut(ep, "/")
      case None => ""
      case Some((month, day)) =>
        if '/' in day || Atoi(month).None? || Atoi(day).None?
           || !(1 <= Atoi(month).value <= 12) || !(1 <= Atoi(day).value <= 31) then ""
        else Decimal(Atoi(season).value) + "-" + Pad2(Atoi(month).value) + "-" + Pad2(Atoi(day).value)
  }

  lemma {:induction false} IndexOfSlash(s: string, k: nat)
    requires k < |s| && s[k] == '/' && forall i :: 0 <= i < k ==> IsDigit(s[i])
    ensures IndexOf(s, "/") == Some(k)
  {
    if k > 0 {
      assert s[0] != '/';
      IndexOfSlash(s[1..], k - 1);
    }
  }

  lemma PrintedAgain(digits: string)
    requires AllDigits(digits) && digits != ""
    ensures |digits| == 4 && Value(digits) >= 1000 ==> Decimal(Value(digits)) == digits
    ensures |digits| == 2 ==> Pad2(Value(digits)) == digits
  {
    var n := Value(digits);
    ValueOfDecimal(n);
    DecimalLength(n);
    if |digits| == 4 && n >= 1000 {
      SmallValue(digits);
      LexIsNumeric(Decimal(n), digits);
    }
    if |digits| == 2 {
      SmallValue(digits);
      Pad2Digits(n);
      LexIsNumeric(Pad2(n), digits);
    }
  }

  lemma {:induction false} SmallValue(digits: string)
    requires AllDigits(digits) && |digits| <= 4
    ensures Value(digits) < if |digits| <= 1 then 10 else if |digits| == 2 then 100 else if |digits| == 3 then 1000 else 10000
  {
    if digits != "" {
      assert digits[|digits| - 1] in digits;
      SmallValue(digits[..|digits| - 1]);
      assert |digits| == 1 ==> Value(digits[..0]) == 0;
    }
  }

  /** A search for a day's year, month and day, as Sonarr writes it, asks for that day. */
  lemma DailySearchAsksForItsDay(d: string)
    requires IsoDate(d) && Value(d[..4]) <= 2100
    ensures ParseDailySearchDate(d[..4], d[5..7] + "/" + d[8..]) == d
  {
    hide Atoi, Decimal, Pad2, Value;
    var y, m, n := d[..4], d[5..7], d[8..];
    assert AllDigits(y) && AllDigits(m) && AllDigits(n);
    var ep := m + "/" + n;
    IndexOfSlash(ep, 2);
    assert ep[..2] == m && ep[3..] == n;
    assert '/' !in n;
    AtoiOfDigits(y);
    AtoiOfDigits(m);
    AtoiOfDigits(n);
    PrintedAgain(y);
    PrintedAgain(m);
    PrintedAgain(n);
    assert d == y + "-" + m + "-" + n;
  }

  /** A programme answers the search for one day at most, whatever its overrides, and whatever season and episode stand beside the day. */
  lemma AnswersOneDay(p: Programme, day: string, other: string, o: Option<ShowOverride>, o2: Option<ShowOverride>,
                      season: int, ep: int, season2: int, ep2: int)
    requires day != "" && other != ""
    requires Matches(p, o, true, day, season, ep)
    ensures Matches(p, o2, true, other, season2, ep2) <==> other == day
    ensures Matches(p, o2, true, p.airDate, season2, ep2) || p.airDate == ""
  {
  }

  /**
   A release whose title goes out by date answers the search for a day if and
   only if its name matches and its title is read back with that day: whatever
   the season, the episode, the quality, the override that dates it and the
   name it goes out under.
   */
  lemma DatedReleaseAnswersItsDay(p: Programme, o: Option<ShowOverride>, nameMatches: bool, day: string, season: int, ep: int,
                                  name: string, quality: string)
    requires IdentityOf(p, o).Dated? && IsoDate(p.airDate) && !HasMarker(quality) && day != ""
    requires var q := p.(name := name);
             NameUnmarked(NameUnder(q, o)) && !HasDate(SanitiseForTitle(NameUnder(q, o)))
             && !HasMarker(DateSubtitle(IdentityOf(p, o).subtitle))
    ensures Matches(p, o, nameMatches, day, season, ep) <==>
              nameMatches && ParseTitle(GenerateTitle(p.(name := name), quality, o).0).airDate == day
    ensures Unnumbered(ParseTitle(GenerateTitle(p.(name := name), quality, o).0))
  {
    hide HasMarker, HasDate, SanitiseForTitle, ParseTitle, BuildDateTitle, DateSubtitle, IsSpecial, IsDateSubtitle;
    var q := p.(name := name);
    assert IdentityOf(q, o) == IdentityOf(p, o);
    DatedAsAired(p, o);
    DatedTitleRoundTrip(NameUnder(q, o), IdentityOf(p, o).subtitle, p.airDate, quality);
  }

  lemma DatedAsAired(p: Programme, o: Option<ShowOverride>)
    ensures IdentityOf(p, o).Dated? ==> IdentityOf(p, o).airDate == p.airDate
  {
    hide IsSpecial, IsDateSubtitle, SpecialNumber;
  }

  /** From the search box to the release: Sonarr's search for a day finds exactly the programmes of that day. */
  lemma DailySearchFindsItsDay(p: Programme, o: Option<ShowOverride>, d: string, season: int, ep: int)
    requires IsoDate(d) && Value(d[..4]) <= 2100
    ensures Matches(p, o, true, ParseDailySearchDate(d[..4], d[5..7] + "/" + d[8..]), season, ep) <==> p.airDate == d
  {
    hide ParseDailySearchDate;
    DailySearchAsksForItsDay(d);
  }
}
