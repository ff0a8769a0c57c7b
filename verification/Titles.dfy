/**
 Release titles: internal/newznab/titles.go, GenerateTitle and the builders.
 The tier chain decides an identity; a builder prints it.
 */
module Titles {
  import opened Text
  import opened Sanitise

  /** store.Programme: what the titles and resolve read. The two marks nothing here reads are kept beside it. */
  datatype Programme = Programme(
    pid: string,
    name: string,
    episode: string,
    series: int,
    seriesAssumed: bool,
    episodeNum: int,
    episodeAssumed: bool,
    position: int,
    airDate: string,
    tvdbNumbered: bool)

  /** store.ShowOverride without the name it is stored under. */
  datatype ShowOverride = ShowOverride(
    forceDateBased: bool,
    forceSeriesNum: int,
    forcePosition: bool,
    seriesOffset: int,
    episodeOffset: int,
    customName: string)

  datatype Tier = TierFull | TierPosition | TierDate | TierManual

  /** What a title says besides the show's name and the quality. */
  datatype Identity =
    | Numbered(season: int, number: int, subtitle: string, tier: Tier)
    | Dated(airDate: string, subtitle: string)
    | TitleOnly(subtitle: string)

  // ---- the patterns a subtitle is tested for ----

  predicate WordAt(s: string, i: nat, word: string) {
    var j := i + |word|;
    && j <= |s|
    && Lower(s[i..j]) == word
    && (i == 0 || !IsWord(s[i - 1]))
    && (j == |s| || !IsWord(s[j]))
  }

  predicate ContainsWord(s: string, word: string) {
    exists i :: 0 <= i <= |s| && WordAt(s, i, word)
  }

  /** reSpecialMarker. */
  predicate IsSpecial(episode: string) {
    || ContainsWord(episode, "special") || ContainsWord(episode, "christmas") || ContainsWord(episode, "easter")
    || ContainsWord(episode, "new year") || ContainsWord(episode, "halloween") || ContainsWord(episode, "bonfire")
  }

  /** reDateSubtitle: day, month and four-digit year, separated by slash, dot or hyphen. */
  predicate IsDateSubtitle(subtitle: string) {
    var s := Trim(subtitle, IsBlank);
    var d := RunLength(s, 0, IsDigit);
    && 1 <= d <= 2 && d < |s| && s[d] in "/.-"
    && var m := RunLength(s, d + 1, IsDigit);
    && 1 <= m <= 2 && d + 1 + m < |s| && s[d + 1 + m] in "/.-"
    && var y := d + m + 2;
    && RunLength(s, y, IsDigit) == 4 && y + 4 == |s|
  }

  /** reCompositeDateSubtitle: a non-empty label, the first colon, then a date. */
  predicate IsCompositeDateSubtitle(subtitle: string) {
    match IndexOf(subtitle, ":")
    case None => false
    case Some(k) => k > 0 && IsDateSubtitle(subtitle[k + 1..])
  }

  predicate IsDateLikeSubtitle(subtitle: string) {
    IsDateSubtitle(subtitle) || IsCompositeDateSubtitle(subtitle)
  }

  /** reSeriesPrefix: where "Series N: M. " ends at the start of a subtitle, 0 when it does not start so. */
  function SeriesPrefixLength(s: string): (n: nat)
    ensures n <= |s|
  {
    if !("Series" <= s) then 0 else
    var a := 6 + RunLength(s, 6, IsBlank);
    var b := a + RunLength(s, a, IsDigit);
    if a == 6 || b == a || b == |s| || s[b] != ':' then 0 else
    var c := b + 1 + RunLength(s, b + 1, IsBlank);
    var d := c + RunLength(s, c, IsDigit);
    if d == c || d == |s| || s[d] != '.' then 0 else
    d + 1 + RunLength(s, d + 1, IsBlank)
  }

  /** BBC's numbering goes, whatever its numbers: "Series 2: 1. Apex Predator" is "Apex Predator". */
  lemma SeriesPrefixIsStripped(series: nat, number: nat, rest: string)
    requires rest != "" ==> !IsBlank(rest[0])
    ensures StripSeriesPrefix("Series " + Decimal(series) + ": " + Decimal(number) + ". " + rest) == rest
  {
    hide SeriesPrefixLength, Decimal;
    NumberedPrefix(Decimal(series), Decimal(number), rest);
  }

  lemma NumberedPrefix(n: string, m: string, rest: string)
    requires n != "" && m != "" && (forall c :: c in n ==> IsDigit(c)) && (forall c :: c in m ==> IsDigit(c))
    requires rest != "" ==> !IsBlank(rest[0])
    ensures StripSeriesPrefix("Series " + n + ": " + m + ". " + rest) == rest
  {
    hide SeriesPrefixLength, RunLength, IsBlank, IsDigit;
    var s := "Series " + n + ": " + m + ". " + rest;
    var b, d := 7 + |n|, 9 + |n| + |m|;
    assert s[6] == ' ' && s[b] == ':' && s[b + 1] == ' ' && s[d] == '.' && s[d + 1] == ' ';
    assert s[7..b] == n && s[b + 2..d] == m;
    assert s[d + 2..] == rest;
    PartIs(s, 7, b, n);
    PartIs(s, b + 2, d, m);
    PrefixRuns(s, b, d);
    PrefixLengthIs(s, b, d);
  }

  lemma PartIs(s: string, i: nat, j: nat, digits: string)
    requires i <= j <= |s| && s[i..j] == digits && forall c :: c in digits ==> IsDigit(c)
    ensures forall k :: i <= k < j ==> IsDigit(s[k])
  {
    forall k | i <= k < j
      ensures IsDigit(s[k])
    {
      assert s[k] == digits[k - i];
    }
  }

  lemma PrefixRuns(s: string, b: nat, d: nat)
    requires 7 < b < d - 2 && d + 2 <= |s|
    requires s[6] == ' ' && s[b] == ':' && s[b + 1] == ' ' && s[d] == '.' && s[d + 1] == ' '
    requires forall k :: 7 <= k < b ==> IsDigit(s[k])
    requires forall k :: b + 2 <= k < d ==> IsDigit(s[k])
    requires d + 2 < |s| ==> !IsBlank(s[d + 2])
    ensures RunLength(s, 6, IsBlank) == RunLength(s, b + 1, IsBlank) == RunLength(s, d + 1, IsBlank) == 1
    ensures RunLength(s, 7, IsDigit) == b - 7 && RunLength(s, b + 2, IsDigit) == d - b - 2
  {
    hide RunLength;
    RunLengthIs(s, 6, IsBlank, 1);
    RunLengthIs(s, 7, IsDigit, b - 7);
    RunLengthIs(s, b + 1, IsBlank, 1);
    RunLengthIs(s, b + 2, IsDigit, d - b - 2);
    RunLengthIs(s, d + 1, IsBlank, 1);
  }

  lemma PrefixLengthIs(s: string, b: nat, d: nat)
    requires 7 < b < d - 2 && d + 2 <= |s| && "Series" <= s
    requires s[b] == ':' && s[d] == '.'
    requires RunLength(s, 6, IsBlank) == RunLength(s, b + 1, IsBlank) == RunLength(s, d + 1, IsBlank) == 1
    requires RunLength(s, 7, IsDigit) == b - 7 && RunLength(s, b + 2, IsDigit) == d - b - 2
    ensures SeriesPrefixLength(s) == d + 2
  {
    hide RunLength, IsBlank, IsDigit;
  }

  function StripSeriesPrefix(s: string): string {
    s[SeriesPrefixLength(s)..]
  }

  /** fmt.Sscanf with %d, leaving 0 when there is no number. */
  function LeadingNumber(s: string): nat {
    var i := RunLength(s, 0, IsBlank);
    var j := if i < |s| && s[i] == '+' then i + 1 else i;
    Value(s[j..j + RunLength(s, j, IsDigit)])
  }

  /** mmddFromDate: MMDD from a date of three parts, else 0. */
  function MmddFromDate(airDate: string): nat {
    match Cut(airDate, "-")
    case None => 0
    case Some((_, rest)) =>
      match Cut(rest, "-")
      case None => 0
      case Some((month, day)) => if '-' in day then 0 else LeadingNumber(month) * 100 + LeadingNumber(day)
  }

  // ---- the tier chain ----

  /** The season and number a special gets when it has no regular numbering: its position, else MMDD. */
  function SpecialNumber(p: Programme): int {
    if p.position == 0 && p.airDate != "" then MmddFromDate(p.airDate) else p.position
  }

  function IdentityOf(p: Programme, o: Option<ShowOverride>): Identity {
    if o.Some? && o.value.forceDateBased && p.airDate != "" then
      Dated(p.airDate, p.episode)
    else if p.tvdbNumbered then
      Numbered(p.series, p.episodeNum, p.episode, TierFull)
    else
      var forced := o.Some? && o.value.forcePosition;
      var series0 := if forced then 0 else p.series;
      var number0 := if forced then 0 else p.episodeNum;
      var series1 := if o.Some? && o.value.forceSeriesNum > 0 then o.value.forceSeriesNum else series0;
      var series := if o.Some? then series1 + o.value.seriesOffset else series1;
      var number := if o.Some? then number0 + o.value.episodeOffset else number0;
      if IsSpecial(p.episode) && (series == 0 || number == 0) && SpecialNumber(p) > 0 then
        Numbered(0, SpecialNumber(p), p.episode, TierFull)
      else if series > 0 && number > 0 then
        Numbered(series, number, p.episode, TierFull)
      else if p.airDate != "" && IsDateSubtitle(p.episode) then
        Dated(p.airDate, "")
      else if p.position > 0 then
        Numbered(if o.Some? && o.value.forceSeriesNum > 0 then o.value.forceSeriesNum else 1,
                 p.position, p.episode, TierPosition)
      else if p.airDate != "" then
        Dated(p.airDate, p.episode)
      else
        TitleOnly(p.episode)
  }

  function TierOf(id: Identity): Tier {
    match id
    case Numbered(_, _, _, tier) => tier
    case Dated(_, _) => TierDate
    case TitleOnly(_) => TierManual
  }

  // ---- the builders ----

  /** What stands between the name's dot and the end of the title. */
  function Tail(subtitle: string, quality: string): string {
    if subtitle != "" then subtitle + "." + (quality + "." + SUFFIX) else quality + "." + SUFFIX
  }

  const SUFFIX := "WEB-DL.AAC.H264-iParr"

  function BuildSxxExxTitle(name: string, episode: string, season: int, number: int, quality: string): string {
    SanitiseForTitle(name) + "." +
    ("S" + Pad2(season) + "E" + Pad2(number) + "." + Tail(SanitiseForTitle(StripSeriesPrefix(episode)), quality))
  }

  function DateSubtitle(episode: string): string {
    if IsDateLikeSubtitle(episode) then "" else SanitiseForTitle(episode)
  }

  function BuildDateTitle(name: string, episode: string, airDate: string, quality: string): string {
    SanitiseForTitle(name) + "." + (Replace(airDate, '-', '.') + "." + Tail(DateSubtitle(episode), quality))
  }

  function BuildManualTitle(name: string, episode: string, quality: string): string {
    SanitiseForTitle(name) + "." + Tail(SanitiseForTitle(episode), quality)
  }

  function Print(name: string, id: Identity, quality: string): string {
    match id
    case Numbered(season, number, episode, _) => BuildSxxExxTitle(name, episode, season, number, quality)
    case Dated(airDate, episode) => BuildDateTitle(name, episode, airDate, quality)
    case TitleOnly(episode) => BuildManualTitle(name, episode, quality)
  }

  function NameUnder(p: Programme, o: Option<ShowOverride>): string {
    if o.Some? && o.value.customName != "" then o.value.customName else p.name
  }

  function GenerateTitle(p: Programme, quality: string, o: Option<ShowOverride>): (string, Tier) {
    (Print(NameUnder(p, o), IdentityOf(p, o), quality), TierOf(IdentityOf(p, o)))
  }

  // ---- the numbers a title carries that nobody gave ----

  /** positionGuess. */
  function PositionGuess(p: Programme): Option<(int, int)> {
    if IsSpecial(p.episode) && (p.series == 0 || p.episodeNum == 0) && SpecialNumber(p) > 0 then
      Some((0, SpecialNumber(p)))
    else if p.series > 0 && p.episodeNum > 0 then
      if p.seriesAssumed && IsSpecial(p.episode) then Some((p.series, p.episodeNum)) else None
    else if p.airDate != "" && IsDateSubtitle(p.episode) then
      None
    else if p.position > 0 then
      Some((1, p.position))
    else
      None
  }

  /** givenNumber (internal/newznab/tvdb.go). */
  function GivenNumber(p: Programme): Option<(int, int)> {
    match PositionGuess(p)
    case Some(n) => Some(n)
    case None => if p.series > 0 && p.episodeNum > 0 then Some((p.series, p.episodeNum)) else None
  }

  /**
   The two copies of the chain agree: with no override, the number a programme
   TheTVDB did not number goes out with is the one givenNumber names, and a
   title without a number is one givenNumber has none for.
   */
  lemma GivenNumberIsPrinted(p: Programme)
    requires !p.tvdbNumbered
    ensures var id := IdentityOf(p, None);
            GivenNumber(p) == if id.Numbered? then Some((id.season, id.number)) else None
  {
  }
}
