/**
 One TheTVDB series' episode list and what it says about a single programme:
 internal/newznab/tvdb.go, the matching functions.
 */
module TVDB {
  import opened Text
  import opened Dates
  import opened Titles

  datatype TVDBEpisode = TVDBEpisode(season: int, episode: int, title: string, airDate: string)

  datatype Candidate = Candidate(key: string, weak: bool)

  /** The title normalisation, which the model leaves open: any functions may stand here. */
  datatype Lexicon = Lexicon(
    titleKey: string -> string,
    specific: string -> bool,
    candidates: string -> seq<Candidate>)

  /** tvdbIndex. Days of specialsOn, first and last are day numbers. */
  datatype TVDBIndex = TVDBIndex(
    lexicon: Lexicon,
    byTitle: map<string, seq<TVDBEpisode>>,
    byNumber: map<(int, int), TVDBEpisode>,
    specialsOn: map<int, seq<TVDBEpisode>>,
    first: int,
    last: int)

  type Strength = s: int | 0 <= s <= 3

  const OFF_WINDOW: Strength := 0
  const ON_AIR_DATE: Strength := 1
  const ON_LABEL: Strength := 2
  const ON_TITLE: Strength := 3

  datatype TVDBMatch = TVDBMatch(season: int, episode: int, strength: Strength) {
    function Number(): (int, int) {
      (season, episode)
    }
  }

  const MATCH_WINDOW := 7
  const BEFORE_RUN := 365
  const AFTER_RUN := 3650

  predicate WithinMatchWindow(a: string, b: string) {
    match (ParseDay(a), ParseDay(b))
    case (Some(x), Some(y)) => -MATCH_WINDOW <= x - y <= MATCH_WINDOW
    case _ => false
  }

  function TitledAs(idx: TVDBIndex, key: string): seq<TVDBEpisode> {
    if key in idx.byTitle then idx.byTitle[key] else []
  }

  // ---- building the index ----

  /** The episodes newTVDBIndex keeps: numbered from 1 and dated. */
  predicate Listed(e: TVDBEpisode) {
    e.episode >= 1 && ParseDay(e.airDate).Some?
  }

  /** The listed episodes titled key, in list order. */
  ghost function EpisodesTitled(lexicon: Lexicon, eps: seq<TVDBEpisode>, key: string): seq<TVDBEpisode> {
    if eps == [] || key == "" then []
    else
      var rest, e := EpisodesTitled(lexicon, eps[..|eps| - 1], key), eps[|eps| - 1];
      if Listed(e) && lexicon.titleKey(e.title) == key then rest + [e] else rest
  }

  /** The listed specials of a day, in list order. */
  ghost function SpecialsAired(eps: seq<TVDBEpisode>, day: int): seq<TVDBEpisode> {
    if eps == [] then []
    else
      var rest, e := SpecialsAired(eps[..|eps| - 1], day), eps[|eps| - 1];
      if Listed(e) && e.season == 0 && ParseDay(e.airDate) == Some(day) then rest + [e] else rest
  }

  /** The last listed episode of a number, the one byNumber keeps. */
  ghost function LastNumbered(eps: seq<TVDBEpisode>, n: (int, int)): Option<TVDBEpisode> {
    if eps == [] then None
    else
      var e := eps[|eps| - 1];
      if Listed(e) && (e.season, e.episode) == n then Some(e) else LastNumbered(eps[..|eps| - 1], n)
  }

  function SpecialsOn(idx: TVDBIndex, day: int): seq<TVDBEpisode> {
    if day in idx.specialsOn then idx.specialsOn[day] else []
  }

  function EpisodeAt(idx: TVDBIndex, n: (int, int)): Option<TVDBEpisode> {
    if n in idx.byNumber then Some(idx.byNumber[n]) else None
  }

  function DayOf(e: TVDBEpisode): int
    requires Listed(e)
  {
    ParseDay(e.airDate).value
  }

  /** What follows the last listed episode dated on Go's zero time, which the source takes for "no first date yet". */
  ghost function SinceZeroDay(eps: seq<TVDBEpisode>): seq<TVDBEpisode> {
    if eps == [] then []
    else
      var e := eps[|eps| - 1];
      if Listed(e) && DayOf(e) == ZERO_DAY then [] else SinceZeroDay(eps[..|eps| - 1]) + [e]
  }

  ghost predicate EarliestIs(first: int, eps: seq<TVDBEpisode>) {
    (exists e :: e in eps && Listed(e) && DayOf(e) == first) && forall e :: e in eps && Listed(e) ==> first <= DayOf(e)
  }

  /** Some listed episode is dated before the year 1. */
  ghost predicate BeforeYearOne(eps: seq<TVDBEpisode>) {
    exists e :: e in eps && Listed(e) && DayOf(e) < ZERO_DAY
  }

  /**
   The run of a list: last is its latest day, or the zero time if that is
   later; first is its earliest day, save that an episode dated on the zero
   time starts the search over, unless an earlier one is listed.
   */
  ghost predicate Spans(idx: TVDBIndex, eps: seq<TVDBEpisode>) {
    && ZERO_DAY <= idx.last && (forall e :: e in eps && Listed(e) ==> DayOf(e) <= idx.last)
    && (idx.last == ZERO_DAY || exists e :: e in eps && Listed(e) && DayOf(e) == idx.last)
    && if BeforeYearOne(eps) then EarliestIs(idx.first, eps)
       else if exists e :: e in SinceZeroDay(eps) && Listed(e) then EarliestIs(idx.first, SinceZeroDay(eps))
       else idx.first == ZERO_DAY
  }

  /** What an index of a list holds, entry by entry, and the run of the list. */
  ghost predicate Indexes(idx: TVDBIndex, eps: seq<TVDBEpisode>) {
    && (forall k :: TitledAs(idx, k) == EpisodesTitled(idx.lexicon, eps, k))
    && (forall d :: SpecialsOn(idx, d) == SpecialsAired(eps, d))
    && (forall n :: EpisodeAt(idx, n) == LastNumbered(eps, n))
    && Spans(idx, eps)
  }

  /** One round of newTVDBIndex's loop, for an episode it keeps. */
  function WithEpisode(idx: TVDBIndex, e: TVDBEpisode): TVDBIndex
    requires Listed(e)
  {
    var key, day := idx.lexicon.titleKey(e.title), ParseDay(e.airDate).value;
    TVDBIndex(
      idx.lexicon,
      if key != "" then idx.byTitle[key := TitledAs(idx, key) + [e]] else idx.byTitle,
      idx.byNumber[(e.season, e.episode) := e],
      if e.season == 0 then idx.specialsOn[day := SpecialsOn(idx, day) + [e]] else idx.specialsOn,
      if idx.first == ZERO_DAY || day < idx.first then day else idx.first,
      if day > idx.last then day else idx.last)
  }

  lemma {:induction false} SinceZeroDayMembers(eps: seq<TVDBEpisode>)
    ensures forall e :: e in SinceZeroDay(eps) ==> e in eps && (Listed(e) ==> DayOf(e) != ZERO_DAY)
  {
    hide ParseDay;
    if eps != [] {
      SinceZeroDayMembers(eps[..|eps| - 1]);
    }
  }

  lemma SpanExtended(idx: TVDBIndex, eps: seq<TVDBEpisode>, e: TVDBEpisode)
    requires Spans(idx, eps)
    ensures Spans(if Listed(e) then WithEpisode(idx, e) else idx, eps + [e])
  {
    hide ParseDay;
    var all := eps + [e];
    assert forall x :: x in all <==> x in eps || x == e;
    assert all[..|eps|] == eps && all[|eps|] == e;
    SinceZeroDayMembers(eps);
    if !(Listed(e) && DayOf(e) == ZERO_DAY) {
      assert forall x :: x in SinceZeroDay(all) <==> x in SinceZeroDay(eps) || x == e;
    }
  }

  lemma IndexesExtended(idx: TVDBIndex, eps: seq<TVDBEpisode>, e: TVDBEpisode)
    requires Indexes(idx, eps)
    ensures Indexes(if Listed(e) then WithEpisode(idx, e) else idx, eps + [e])
  {
    hide ParseDay, Spans;
    var after := if Listed(e) then WithEpisode(idx, e) else idx;
    SpanExtended(idx, eps, e);
    assert (eps + [e])[..|eps|] == eps;
    forall k
      ensures TitledAs(after, k) == EpisodesTitled(idx.lexicon, eps + [e], k)
    {
      assert TitledAs(idx, k) == EpisodesTitled(idx.lexicon, eps, k);
    }
    forall d
      ensures SpecialsOn(after, d) == SpecialsAired(eps + [e], d)
    {
      assert SpecialsOn(idx, d) == SpecialsAired(eps, d);
    }
    forall n
      ensures EpisodeAt(after, n) == LastNumbered(eps + [e], n)
    {
      assert EpisodeAt(idx, n) == LastNumbered(eps, n);
    }
  }

  method NewTVDBIndex(lexicon: Lexicon, eps: seq<TVDBEpisode>) returns (idx: TVDBIndex)
    ensures idx.lexicon == lexicon && Indexes(idx, eps)
  {
    hide Indexes;
    idx := TVDBIndex(lexicon, map[], map[], map[], ZERO_DAY, ZERO_DAY);
    EmptyIndexes(idx);
    for i := 0 to |eps|
      invariant idx.lexicon == lexicon && Indexes(idx, eps[..i])
    {
      IndexesExtended(idx, eps[..i], eps[i]);
      assert eps[..i + 1] == eps[..i] + [eps[i]];
      if Listed(eps[i]) {
        idx := WithEpisode(idx, eps[i]);
      }
    }
    assert eps[..|eps|] == eps;
  }

  lemma EmptyIndexes(idx: TVDBIndex)
    requires idx.byTitle == map[] && idx.byNumber == map[] && idx.specialsOn == map[] && idx.first == idx.last == ZERO_DAY
    ensures Indexes(idx, [])
  {
  }

  // ---- matching a programme's title ----

  /** The matches one candidate title finds among the episodes of that title, in order. */
  function HitsAmong(eps: seq<TVDBEpisode>, airDate: string, strength: Strength): seq<TVDBMatch> {
    if eps == [] then []
    else
      var rest, e := HitsAmong(eps[..|eps| - 1], airDate, strength), eps[|eps| - 1];
      if WithinMatchWindow(e.airDate, airDate) then rest + [TVDBMatch(e.season, e.episode, strength)] else rest
  }

  function CandidateStrength(c: Candidate): Strength {
    if c.weak then ON_LABEL else ON_TITLE
  }

  function TitleHits(idx: TVDBIndex, cs: seq<Candidate>, airDate: string): seq<TVDBMatch> {
    if cs == [] then []
    else
      var c := cs[|cs| - 1];
      TitleHits(idx, cs[..|cs| - 1], airDate) + HitsAmong(TitledAs(idx, c.key), airDate, CandidateStrength(c))
  }

  /** The episodes a programme's specific candidate titles name, whatever their dates, in order. */
  function SpecificEpisodes(idx: TVDBIndex, cs: seq<Candidate>): seq<TVDBEpisode> {
    if cs == [] then []
    else
      var rest, c := SpecificEpisodes(idx, cs[..|cs| - 1]), cs[|cs| - 1];
      if idx.lexicon.specific(c.key) then rest + TitledAs(idx, c.key) else rest
  }

  function Numbers(ms: seq<TVDBMatch>): seq<(int, int)> {
    seq(|ms|, i requires 0 <= i < |ms| => ms[i].Number())
  }

  function EpisodeNumbers(eps: seq<TVDBEpisode>): seq<(int, int)> {
    seq(|eps|, i requires 0 <= i < |eps| => (eps[i].season, eps[i].episode))
  }

  /** A list of numbers names one episode. */
  predicate OneNumber(ns: seq<(int, int)>) {
    ns != [] && forall n :: n in ns ==> n == ns[0]
  }

  /** How many distinct neighbours a scan counts: what the counter n of the matching loops holds. */
  function Switches(ns: seq<(int, int)>): (n: nat)
    ensures n == 0 <==> ns == []
    ensures n == 1 <==> OneNumber(ns)
  {
    if ns == [] then 0
    else if |ns| == 1 then 1
    else
      var last := |ns| - 1;
      assert ns == ns[..last] + [ns[last]] && ns[..last][last - 1] == ns[last - 1];
      assert forall n :: n in ns <==> n in ns[..last] || n == ns[last];
      assert ns[last - 1] in ns && ns[last] in ns && ns[last - 1] in ns[..last];
      assert ns[0] == ns[..last][0];
      if ns[last] == ns[last - 1] then Switches(ns[..last]) else Switches(ns[..last]) + 1
  }

  function Strongest(ms: seq<TVDBMatch>): (s: Strength)
    ensures forall m :: m in ms ==> m.strength <= s
    ensures ms != [] ==> exists m :: m in ms && m.strength == s
  {
    if ms == [] then OFF_WINDOW
    else
      var rest, m := Strongest(ms[..|ms| - 1]), ms[|ms| - 1];
      if m.strength > rest then m.strength else rest
  }

  datatype TitleVerdict = NoEpisode | OneEpisode(found: TVDBMatch) | SeveralEpisodes

  /** What a list of title matches amounts to: their one number, matched as strongly as the strongest of them. */
  function Verdict(hits: seq<TVDBMatch>): TitleVerdict {
    if hits == [] then NoEpisode
    else if OneNumber(Numbers(hits)) then
      OneEpisode(TVDBMatch(hits[0].season, hits[0].episode, Strongest(hits)))
    else SeveralEpisodes
  }

  function TitleVerdictOf(idx: TVDBIndex, subtitle: string, airDate: string): TitleVerdict {
    if ParseDay(airDate).None? then NoEpisode
    else Verdict(TitleHits(idx, idx.lexicon.candidates(subtitle), airDate))
  }

  /** What the scan of titleMatches has after some matches. */
  ghost predicate Scanned(found: TVDBMatch, n: nat, hits: seq<TVDBMatch>) {
    && n == Switches(Numbers(hits))
    && (hits != [] ==> found.Number() == hits[|hits| - 1].Number())
    && (n == 1 ==> found.strength == Strongest(hits))
  }

  lemma ScanOne(found: TVDBMatch, n: nat, hits: seq<TVDBMatch>, m: TVDBMatch)
    requires Scanned(found, n, hits)
    ensures n > 0 && m.Number() == found.Number()
            ==> Scanned(if found.strength < m.strength then m else found, n, hits + [m])
    ensures !(n > 0 && m.Number() == found.Number()) ==> Scanned(m, n + 1, hits + [m])
  {
    var all := hits + [m];
    assert all[..|hits|] == hits;
    assert Numbers(all)[..|hits|] == Numbers(hits);
    assert Numbers(all)[|hits|] == m.Number();
    if hits != [] {
      assert Numbers(all)[|hits| - 1] == hits[|hits| - 1].Number();
    }
  }

  lemma ScanVerdict(found: TVDBMatch, n: nat, hits: seq<TVDBMatch>)
    requires Scanned(found, n, hits)
    ensures Verdict(hits) == if n == 0 then NoEpisode else if n == 1 then OneEpisode(found) else SeveralEpisodes
  {
    if n == 1 {
      var last := |hits| - 1;
      assert Numbers(hits)[last] in Numbers(hits) && Numbers(hits)[0] == hits[0].Number();
    }
  }

  method TitleMatches(idx: TVDBIndex, subtitle: string, airDate: string) returns (found: TVDBMatch, n: nat)
    ensures TitleVerdictOf(idx, subtitle, airDate)
            == if n == 0 then NoEpisode else if n == 1 then OneEpisode(found) else SeveralEpisodes
  {
    hide Scanned, Verdict, WithinMatchWindow, ParseDay;
    found, n := TVDBMatch(0, 0, OFF_WINDOW), 0;
    if ParseDay(airDate).None? {
      return;
    }
    var cs := idx.lexicon.candidates(subtitle);
    NothingScanned(found);
    for i := 0 to |cs|
      invariant Scanned(found, n, TitleHits(idx, cs[..i], airDate))
    {
      var c := cs[i];
      var eps, strength := TitledAs(idx, c.key), CandidateStrength(c);
      ghost var before := TitleHits(idx, cs[..i], airDate);
      assert before + HitsAmong(eps[..0], airDate, strength) == before;
      for j := 0 to |eps|
        invariant Scanned(found, n, before + HitsAmong(eps[..j], airDate, strength))
      {
        var e := eps[j];
        ghost var hits := before + HitsAmong(eps[..j], airDate, strength);
        assert eps[..j + 1][..j] == eps[..j];
        if WithinMatchWindow(e.airDate, airDate) {
          var m := TVDBMatch(e.season, e.episode, strength);
          ScanOne(found, n, hits, m);
          assert before + HitsAmong(eps[..j + 1], airDate, strength) == hits + [m];
          if n > 0 && e.season == found.season && e.episode == found.episode {
            found := if found.strength < strength then m else found;
          } else {
            found, n := m, n + 1;
          }
        }
      }
      assert eps[..|eps|] == eps;
      assert cs[..i + 1][..i] == cs[..i];
    }
    assert cs[..|cs|] == cs;
    ScanVerdict(found, n, TitleHits(idx, cs, airDate));
  }

  lemma NothingScanned(found: TVDBMatch)
    ensures Scanned(found, 0, [])
  {
  }

  // ---- the rest of what a list says about one programme ----

  function Contains(s: string, sub: string): bool {
    IndexOf(s, sub).Some?
  }

  /** The specials whose specific title the subtitle contains. */
  function NamedIn(lexicon: Lexicon, eps: seq<TVDBEpisode>, key: string): seq<TVDBEpisode> {
    if eps == [] then []
    else
      var rest, e := NamedIn(lexicon, eps[..|eps| - 1], key), eps[|eps| - 1];
      var k := lexicon.titleKey(e.title);
      if lexicon.specific(k) && Contains(key, " " + k + " ") then rest + [e] else rest
  }

  function SpecialOn(idx: TVDBIndex, subtitle: string, airDate: string): Option<TVDBMatch> {
    match ParseDay(airDate)
    case None => None
    case Some(day) =>
      var aired := SpecialsOn(idx, day);
      var eps := if |aired| > 1 then NamedIn(idx.lexicon, aired, " " + idx.lexicon.titleKey(subtitle) + " ") else aired;
      if |eps| != 1 then None else Some(TVDBMatch(eps[0].season, eps[0].episode, ON_AIR_DATE))
  }

  datatype Guess = Unchecked | Confirmed | Near | Contradicted

  function CheckGuess(idx: TVDBIndex, n: (int, int), subtitle: string, airDate: string): Guess {
    match EpisodeAt(idx, n)
    case None => Unchecked
    case Some(e) =>
      var k := idx.lexicon.titleKey(subtitle);
      if k != "" && k == idx.lexicon.titleKey(e.title) then Confirmed
      else if ParseDay(airDate).None? then Unchecked
      else if e.airDate == airDate then Confirmed
      else if WithinMatchWindow(e.airDate, airDate) then Near
      else Contradicted
  }

  /** The list bears a number out: its episode has the title, or aired within the window. */
  predicate BornOut(idx: TVDBIndex, p: Programme, n: (int, int)) {
    CheckGuess(idx, n, p.episode, p.airDate) in {Confirmed, Near}
  }

  /** The specific titles of p all name one number, whatever the dates: its first episode. */
  function SpecificEpisode(idx: TVDBIndex, p: Programme): Option<TVDBEpisode> {
    var eps := SpecificEpisodes(idx, idx.lexicon.candidates(p.episode));
    if OneNumber(EpisodeNumbers(eps)) then Some(eps[0]) else None
  }

  /** The programme aired more than tvdbBeforeRun before the episode. */
  predicate LongBefore(airDate: string, e: TVDBEpisode) {
    match (ParseDay(airDate), ParseDay(e.airDate))
    case (Some(aired), Some(first)) => aired < first - BEFORE_RUN
    case (Some(aired), None) => aired < ZERO_DAY - BEFORE_RUN
    case _ => false
  }

  function TitleAnyDate(idx: TVDBIndex, p: Programme): Option<TVDBMatch> {
    var given := GivenNumber(p);
    if given.None? || BornOut(idx, p, given.value) then None
    else
      match SpecificEpisode(idx, p)
      case None => None
      case Some(e) => if LongBefore(p.airDate, e) then None else Some(TVDBMatch(e.season, e.episode, OFF_WINDOW))
  }

  /** The counting scan of titleAnyDate. */
  method FindSpecificEpisode(idx: TVDBIndex, p: Programme) returns (r: Option<TVDBEpisode>)
    ensures r == SpecificEpisode(idx, p)
  {
    hide SpecificEpisode, Counted;
    var cs := idx.lexicon.candidates(p.episode);
    var found, n := TVDBEpisode(0, 0, "", ""), 0;
    NothingCounted(found);
    for i := 0 to |cs|
      invariant Counted(found, n, SpecificEpisodes(idx, cs[..i]))
    {
      var c := cs[i];
      assert cs[..i + 1][..i] == cs[..i];
      if idx.lexicon.specific(c.key) {
        var eps := TitledAs(idx, c.key);
        ghost var before := SpecificEpisodes(idx, cs[..i]);
        assert before + eps[..0] == before;
        for j := 0 to |eps|
          invariant Counted(found, n, before + eps[..j])
        {
          CountOne(found, n, before + eps[..j], eps[j]);
          assert before + eps[..j + 1] == before + eps[..j] + [eps[j]];
          if !(n > 0 && SameNumber(eps[j], found)) {
            found, n := eps[j], n + 1;
          }
        }
        assert eps[..|eps|] == eps;
      }
    }
    assert cs[..|cs|] == cs;
    CountVerdict(idx, p, found, n);
    r := if n == 1 then Some(found) else None;
  }

  predicate SameNumber(e: TVDBEpisode, f: TVDBEpisode) {
    e.season == f.season && e.episode == f.episode
  }

  ghost predicate Counted(found: TVDBEpisode, n: nat, eps: seq<TVDBEpisode>) {
    && n == Switches(EpisodeNumbers(eps))
    && (eps != [] ==> SameNumber(found, eps[|eps| - 1]))
    && (n == 1 ==> found == eps[0])
  }

  lemma CountOne(found: TVDBEpisode, n: nat, eps: seq<TVDBEpisode>, e: TVDBEpisode)
    requires Counted(found, n, eps)
    ensures n > 0 && SameNumber(e, found) ==> Counted(found, n, eps + [e])
    ensures !(n > 0 && SameNumber(e, found)) ==> Counted(e, n + 1, eps + [e])
  {
    var ns := EpisodeNumbers(eps + [e]);
    assert ns[..|eps|] == EpisodeNumbers(eps);
  }

  lemma NothingCounted(found: TVDBEpisode)
    ensures Counted(found, 0, [])
  {
  }

  lemma CountVerdict(idx: TVDBIndex, p: Programme, found: TVDBEpisode, n: nat)
    requires Counted(found, n, SpecificEpisodes(idx, idx.lexicon.candidates(p.episode)))
    ensures SpecificEpisode(idx, p) == if n == 1 then Some(found) else None
  {
  }

  // ---- labels, versions and parts ----

  predicate StartsWithEpisodeNumber(s: string) {
    var d := RunLength(s, 0, IsDigit);
    d > 0 && d < |s| && s[d] == '.'
  }

  /** reEpisodePart. */
  predicate IsEpisodePart(s: string) {
    exists word :: word in {"episode", "pennod"} && word <= Lower(s) &&
      var b := |word| + RunLength(s, |word|, IsBlank);
      b > |word| && b < |s| && IsDigit(s[b])
  }

  predicate StoryPart(subtitle: string) {
    match Cut(subtitle, ": ")
    case None => false
    case Some((_, rest)) =>
      match Cut(rest, ": ")
      case None => false
      case Some((story, part)) => !StartsWithEpisodeNumber(story) && IsEpisodePart(part)
  }

  /** seriesLabel. */
  function SeriesLabel(subtitle: string): string {
    match Cut(subtitle, ": ")
    case None => ""
    case Some((name, rest)) => if StartsWithEpisodeNumber(rest) then name else ""
  }

  /** The subtitle without reVersionSuffix. */
  function VersionBase(subtitle: string): (base: string)
    ensures base == subtitle || |base| < |subtitle|
  {
    if HasSuffix(subtitle, " - Signed") then TrimSuffix(subtitle, " - Signed")
    else if HasSuffix(subtitle, " (Animated)") then TrimSuffix(subtitle, " (Animated)")
    else TrimSuffix(subtitle, " (Reconstruction)")
  }

  predicate AssumedNumber(p: Programme) {
    p.seriesAssumed || p.episodeAssumed || StoryPart(p.episode)
  }

  predicate BeyondRun(idx: TVDBIndex, airDate: string) {
    match ParseDay(airDate)
    case None => false
    case Some(aired) => idx.first != ZERO_DAY && (aired < idx.first - BEFORE_RUN || aired > idx.last + AFTER_RUN)
  }

  predicate Contradicts(idx: TVDBIndex, p: Programme, showMatched: bool) {
    var given := GivenNumber(p);
    && given.Some?
    && var guessed := PositionGuess(p).Some?;
    && ((guessed && IsSpecial(p.episode))
        || (!guessed && (AssumedNumber(p) || (!showMatched && BeyondRun(idx, p.airDate)))))
    && CheckGuess(idx, given.value, p.episode, p.airDate) == Contradicted
  }

  // ---- the number a programme claims ----

  /** The guess a programme goes out with keeps the air date from naming a special for it. */
  predicate GuessStands(idx: TVDBIndex, p: Programme, guess: (int, int)) {
    var verdict := CheckGuess(idx, guess, p.episode, p.airDate);
    verdict == Confirmed || (verdict == Near && guess.0 != 0)
  }

  /** The TheTVDB number a programme claims on its own, if any: the first loop of resolve. */
  function ClaimOf(idx: TVDBIndex, p: Programme, datable: bool): Option<TVDBMatch> {
    match TitleVerdictOf(idx, p.episode, p.airDate)
    case OneEpisode(m) => Some(m)
    case SeveralEpisodes => None
    case NoEpisode =>
      if !datable then None
      else
        var guess := PositionGuess(p);
        if guess.Some? && GuessStands(idx, p, guess.value) then None
        else
          var special := if guess.Some? then SpecialOn(idx, p.episode, p.airDate) else None;
          if special.Some? then special else TitleAnyDate(idx, p)
  }

  method Claim(idx: TVDBIndex, p: Programme, datable: bool) returns (m: Option<TVDBMatch>)
    ensures m == ClaimOf(idx, p, datable)
  {
    hide TitleVerdictOf, PositionGuess, GivenNumber, CheckGuess, SpecialOn, LongBefore, SpecificEpisode;
    var found, n := TitleMatches(idx, p.episode, p.airDate);
    if n == 1 {
      return Some(found);
    }
    if n > 1 || !datable {
      return None;
    }
    m := None;
    var guess := PositionGuess(p);
    if guess.Some? {
      if GuessStands(idx, p, guess.value) {
        return None;
      }
      m := SpecialOn(idx, p.episode, p.airDate);
    }
    if m.None? {
      var given := GivenNumber(p);
      if given.Some? && !BornOut(idx, p, given.value) {
        var e := FindSpecificEpisode(idx, p);
        if e.Some? && !LongBefore(p.airDate, e.value) {
          m := Some(TVDBMatch(e.value.season, e.value.episode, OFF_WINDOW));
        }
      }
    }
  }
}
