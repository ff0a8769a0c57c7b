/**
 ParseTitle is the read side of the title builders: what it reads back from a
 printed title, exactly when the round trip holds, and what it reads when the
 printed number does not fit the marker.
 */
module RoundTrip {
  import opened Text
  import opened Sanitise
  import opened Parse
  import opened Titles

  /** The show name a fragment stands for, with its dots as spaces. */
  function DotsAsSpaces(fragment: string): string {
    Replace(fragment, '.', ' ')
  }

  /** A season and episode number the marker pattern has room for. */
  predicate InMarkerRange(season: int, number: int) {
    0 <= season <= 99 && 0 <= number <= 9999
  }

  predicate Readable(id: Identity) {
    id.Numbered? && InMarkerRange(id.season, id.number)
  }

  // ---- the marker a builder prints ----

  function Marker(season: int, number: int): string {
    "S" + Pad2(season) + "E" + Pad2(number)
  }

  lemma NoSNoMarker(t: string)
    requires forall i :: 0 <= i < |t| ==> LowerChar(t[i]) != 's'
    ensures !HasMarker(t)
  {
    forall k: nat | k < |t|
      ensures !MarkerAt(t, k)
    {
      assert t[k..][0] == t[k];
    }
  }

  lemma PrintedMarkerInRange(season: int, number: int)
    requires InMarkerRange(season, number)
    ensures StartsWithMarker(Marker(season, number))
    ensures SeasonOf(Marker(season, number)) == season && EpisodeOf(Marker(season, number)) == number
  {
    var m, s, n := Marker(season, number), Pad2(season), Pad2(number);
    Pad2Digits(season);
    Pad2Digits(number);
    assert m[1..1 + |s|] == s && m[2 + |s|..2 + |s| + |n|] == n;
    forall k | 1 <= k < 1 + |s| ensures IsDigit(m[k]) { assert m[k] == s[k - 1]; }
    forall k | 2 + |s| <= k < |m| ensures IsDigit(m[k]) { assert m[k] == n[k - 2 - |s|]; }
    RunLengthIs(m, 1, IsDigit, |s|);
    RunLengthIs(m, 2 + |s|, IsDigit, |n|);
  }

  lemma PrintedMarkerOutOfRange(season: int, number: int)
    requires !InMarkerRange(season, number)
    ensures !StartsWithMarker(Marker(season, number))
  {
    var m, s, n := Marker(season, number), Pad2(season), Pad2(number);
    if season < 0 {
      assert m[1] == '-';
      RunLengthIs(m, 1, IsDigit, 0);
    } else {
      Pad2Digits(season);
      assert m[1..1 + |s|] == s;
      forall k | 1 <= k < 1 + |s| ensures IsDigit(m[k]) { assert m[k] == s[k - 1]; }
      RunLengthIs(m, 1, IsDigit, |s|);
      if season <= 99 {
        var j := 2 + |s|;
        if number < 0 {
          assert m[j] == '-';
          RunLengthIs(m, j, IsDigit, 0);
        } else {
          Pad2Digits(number);
          forall k | j <= k < |m| ensures IsDigit(m[k]) { assert m[k] == n[k - j]; }
          RunLengthIs(m, j, IsDigit, |n|);
        }
      }
    }
  }

  lemma Pad2HasNoS(n: int)
    ensures forall i :: 0 <= i < |Pad2(n)| ==> LowerChar(Pad2(n)[i]) != 's'
  {
    var p := Pad2(n);
    forall i | 0 <= i < |p|
      ensures LowerChar(p[i]) != 's'
    {
      assert p[i] in p;
      assert p[i] == '-' || IsDigit(p[i]);
    }
  }

  /** The leftmost marker of what a builder prints after the name: the number, if the pattern has room for it. */
  lemma FirstMarkerOfNumber(season: int, number: int, rest: string)
    ensures InMarkerRange(season, number) ==> FirstMarker(Marker(season, number) + "." + rest) == Some(0)
    ensures !InMarkerRange(season, number) ==> !HasMarker(Marker(season, number))
  {
    var m := Marker(season, number);
    var t := m + "." + rest;
    if InMarkerRange(season, number) {
      PrintedMarkerInRange(season, number);
      StartsWithMarkerDotted(m, rest);
      assert t[0..] == t;
      FirstIs(t, MarkerAt, 0);
    } else {
      PrintedMarkerOutOfRange(season, number);
      Pad2HasNoS(season);
      Pad2HasNoS(number);
      forall k: nat | k < |m|
        ensures !MarkerAt(m, k)
      {
        assert m[0..] == m;
        assert k > 0 ==> m[k..][0] == m[k] && LowerChar(m[k]) != 's';
      }
    }
  }

  // ---- the parts of a title ----

  lemma SuffixUnmarked()
    ensures !HasMarker(SUFFIX)
  {
    NoSNoMarker(SUFFIX);
  }

  lemma DottedUnmarked(a: string, b: string)
    ensures HasMarker(a + "." + b) <==> HasMarker(a) || HasMarker(b)
  {
    FirstMarkerOfDotted(a, b);
  }

  lemma TailMarked(subtitle: string, quality: string)
    requires !HasMarker(quality)
    ensures HasMarker(Tail(subtitle, quality)) <==> HasMarker(subtitle)
  {
    hide HasMarker;
    SuffixUnmarked();
    DottedUnmarked(quality, SUFFIX);
    NoSNoMarker("");
    if subtitle != "" {
      DottedUnmarked(subtitle, quality + "." + SUFFIX);
    }
  }

  lemma TailEnds(subtitle: string, quality: string)
    ensures HasSuffix(Tail(subtitle, quality), SUFFIX)
  {
  }

  /** A printed title has nothing for ParseTitle to trim. */
  lemma NothingTrimmed(name: string, rest: string)
    requires HasSuffix(rest, SUFFIX)
    ensures var t := SanitiseForTitle(name) + "." + rest; TrimSuffix(TrimSpace(t), ".nzb") == t
  {
    hide SanitiseForTitle;
    SanitisedIsClean(name);
    var sn := SanitiseForTitle(name);
    var t := sn + "." + rest;
    assert t[0] == '.' || (t[0] == sn[0] && sn[0] in sn);
    assert t[|t| - 1] == rest[|rest| - 1] == rest[|rest| - |SUFFIX|..][|SUFFIX| - 1] == 'r';
    TrimNothing(t, IsSpace);
  }

  // ---- show names ----

  /** Single spaces between words and none at an edge. */
  predicate SingleSpaced(s: string) {
    && (forall i :: 0 <= i < |s| && IsSpace(s[i]) ==> s[i] == ' ')
    && (forall i :: 0 <= i < |s| - 1 ==> !(s[i] == ' ' && s[i + 1] == ' '))
    && (s != [] ==> s[0] != ' ' && s[|s| - 1] != ' ')
  }

  lemma {:induction false} JoinFieldsOfSpaced(s: string)
    requires SingleSpaced(s)
    ensures JoinFields(s + " ") == s
    decreases |s|
  {
    var t := s + " ";
    if s == [] {
      assert t[1..] == [];
    } else {
      var w := FirstWord(s, t);
      assert t[w..] == [' '] + t[w + 1..];
      if w == |s| {
        assert t[w + 1..] == [];
      } else {
        var rest := s[w + 1..];
        assert t[w + 1..] == rest + " ";
        JoinFieldsOfSpaced(rest);
        assert t[..w] + " " + rest == s;
      }
    }
  }

  lemma FirstWord(s: string, t: string) returns (w: nat)
    requires s != [] && SingleSpaced(s) && t == s + " "
    ensures w == RunLength(t, 0, NotSpace)
    ensures 0 < w <= |s| && t[w] == ' '
    ensures w < |s| ==> s[w + 1..] != [] && SingleSpaced(s[w + 1..])
  {
    w := RunLength(t, 0, NotSpace);
    assert !NotSpace(t[|s|]);
  }

  lemma ShowNameReadBack(sn: string)
    requires Clean(sn)
    ensures ShowNameFromPrefix(sn + ".") == DotsAsSpaces(sn)
  {
    var r := DotsAsSpaces(sn);
    assert SingleSpaced(r) by {
      forall i | 0 <= i < |r| && IsSpace(r[i])
        ensures r[i] == ' '
      {
        assert sn[i] in sn;
      }
      forall i | 0 <= i < |r| - 1
        ensures !(r[i] == ' ' && r[i + 1] == ' ')
      {
        assert sn[i] in sn && sn[i + 1] in sn;
      }
      if sn != [] {
        assert sn[0] in sn && sn[|sn| - 1] in sn;
      }
    }
    JoinFieldsOfSpaced(r);
    assert Replace(sn + ".", '.', ' ') == r + " ";
  }

  // ---- the numbered titles ----

  /**
   ParseTitle inverts buildSxxExxTitle for every number the marker has room
   for, exactly when the show's name carries no marker of its own.
   */
  lemma NumberedTitleRoundTrip(name: string, episode: string, season: int, number: int, quality: string)
    requires InMarkerRange(season, number)
    ensures ParseTitle(BuildSxxExxTitle(name, episode, season, number, quality))
            == EpisodeIdentity(DotsAsSpaces(SanitiseForTitle(name)), season, number, "")
            <==> !HasMarker(SanitiseForTitle(name))
  {
    hide SanitiseForTitle, Marker, StripSeriesPrefix;
    var sn := SanitiseForTitle(name);
    var tail := Tail(SanitiseForTitle(StripSeriesPrefix(episode)), quality);
    var rest := Marker(season, number) + "." + tail;
    var t := sn + "." + rest;
    NumberedTitleIs(name, episode, season, number, quality);
    TailEnds(SanitiseForTitle(StripSeriesPrefix(episode)), quality);
    SuffixOfDotted(Marker(season, number), tail);
    NothingTrimmed(name, rest);
    FirstMarkerOfNumber(season, number, tail);
    FirstMarkerOfDotted(sn, rest);
    if HasMarker(sn) {
      MarkerInNameCutsIt(sn, rest);
    } else {
      SanitisedIsClean(name);
      ReadPrintedNumber(sn, season, number, tail);
    }
  }

  lemma NumberedTitleIs(name: string, episode: string, season: int, number: int, quality: string)
    ensures BuildSxxExxTitle(name, episode, season, number, quality)
            == SanitiseForTitle(name) + "." +
               (Marker(season, number) + "." + Tail(SanitiseForTitle(StripSeriesPrefix(episode)), quality))
  {
  }

  lemma SuffixOfDotted(a: string, b: string)
    requires HasSuffix(b, SUFFIX)
    ensures HasSuffix(a + "." + b, SUFFIX)
  {
    var t := a + "." + b;
    assert t[|t| - |SUFFIX|..] == b[|b| - |SUFFIX|..];
  }

  /** A marker or a date inside the name leaves a shorter show name. */
  lemma MarkerInNameCutsIt(sn: string, rest: string)
    requires HasMarker(sn)
    requires var t := sn + "." + rest; TrimSuffix(TrimSpace(t), ".nzb") == t
    ensures |ParseTitle(sn + "." + rest).showName| < |sn| && ParseTitle(sn + "." + rest).airDate == ""
  {
    FirstMarkerOfDotted(sn, rest);
  }

  lemma ReadPrintedNumber(sn: string, season: int, number: int, tail: string)
    requires Clean(sn) && !HasMarker(sn)
    requires InMarkerRange(season, number)
    requires var t := sn + "." + (Marker(season, number) + "." + tail); TrimSuffix(TrimSpace(t), ".nzb") == t
    ensures ParseTitle(sn + "." + (Marker(season, number) + "." + tail))
            == EpisodeIdentity(DotsAsSpaces(sn), season, number, "")
  {
    hide Marker;
    var rest := Marker(season, number) + "." + tail;
    var t := sn + "." + rest;
    FirstMarkerOfNumber(season, number, tail);
    FirstMarkerOfDotted(sn, rest);
    assert t[..|sn| + 1] == sn + "." && t[|sn| + 1..] == rest;
    PrintedMarkerInRange(season, number);
    StartsWithMarkerDotted(Marker(season, number), tail);
    ShowNameReadBack(sn);
  }

  // ---- the number in any printed title ----

  predicate NameUnmarked(name: string) {
    !HasMarker(SanitiseForTitle(name))
  }

  predicate SubtitleUnmarked(episode: string) {
    !HasMarker(SanitiseForTitle(episode)) && !HasMarker(SanitiseForTitle(StripSeriesPrefix(episode)))
  }

  predicate AirDateUnmarked(airDate: string) {
    !HasMarker(Replace(airDate, '-', '.'))
  }

  predicate IdentityUnmarked(id: Identity) {
    && SubtitleUnmarked(id.subtitle)
    && (id.Dated? ==> AirDateUnmarked(id.airDate))
  }

  lemma UnmarkedTitleUnnumbered(name: string, rest: string)
    requires NameUnmarked(name) && !HasMarker(rest) && HasSuffix(rest, SUFFIX)
    ensures Unnumbered(ParseTitle(SanitiseForTitle(name) + "." + rest))
  {
    hide SanitiseForTitle;
    NothingTrimmed(name, rest);
    DottedUnmarked(SanitiseForTitle(name), rest);
  }

  /**
   What season and episode a printed title reads back as: the printed number
   when the marker has room for it, else none.
   */
  lemma PrintedNumberReadBack(name: string, id: Identity, quality: string)
    requires NameUnmarked(name) && IdentityUnmarked(id) && !HasMarker(quality)
    ensures Readable(id) ==> NumberedAs(ParseTitle(Print(name, id, quality)), id.season, id.number)
    ensures !Readable(id) ==> Unnumbered(ParseTitle(Print(name, id, quality)))
  {
    hide SanitiseForTitle, Marker, StripSeriesPrefix, HasMarker, ParseTitle;
    match id
    case Numbered(season, number, episode, _) =>
      var se := SanitiseForTitle(StripSeriesPrefix(episode));
      if InMarkerRange(season, number) {
        NumberedTitleRoundTrip(name, episode, season, number, quality);
      } else {
        NumberedTitleIs(name, episode, season, number, quality);
        TailEnds(se, quality);
        TailMarked(se, quality);
        FirstMarkerOfNumber(season, number, "");
        DottedUnmarked(Marker(season, number), Tail(se, quality));
        SuffixOfDotted(Marker(season, number), Tail(se, quality));
        UnmarkedTitleUnnumbered(name, Marker(season, number) + "." + Tail(se, quality));
      }
    case Dated(airDate, episode) =>
      var date, se := Replace(airDate, '-', '.'), DateSubtitle(episode);
      NoSNoMarker("");
      TailEnds(se, quality);
      TailMarked(se, quality);
      DottedUnmarked(date, Tail(se, quality));
      SuffixOfDotted(date, Tail(se, quality));
      UnmarkedTitleUnnumbered(name, date + "." + Tail(se, quality));
    case TitleOnly(episode) =>
      var se := SanitiseForTitle(episode);
      TailEnds(se, quality);
      TailMarked(se, quality);
      UnmarkedTitleUnnumbered(name, Tail(se, quality));
  }

  // ---- the dated titles ----

  /** An ISO date of a year, month and day ParseTitle accepts. */
  predicate IsoDate(d: string) {
    && |d| == 10 && DigitsAt(d, 0, 4) && d[4] == '-' && DigitsAt(d, 5, 2) && d[7] == '-' && DigitsAt(d, 8, 2)
    && 1900 <= Value(d[..4]) <= 2199 && 1 <= Value(d[5..7]) <= 12 && 1 <= Value(d[8..]) <= 31
  }

  function Dotted(d: string): string {
    Replace(d, '-', '.')
  }

  lemma NameDateAt(sn: string, d: string, rest: string, t: string, k: nat)
    requires IsoDate(d) && k < |sn|
    requires t == sn + "." + (Dotted(d) + "." + rest)
    ensures DateAt(t, k) <==> DateAt(sn, k)
  {
    var n := |sn|;
    assert t[n] == '.';
    assert forall i :: 0 <= i < 10 ==> t[n + 1 + i] == Dotted(d)[i];
    // A window reaching past the name would need the name's dot as one of its
    // separators, and then a digit of the year as the other or as its end.
    assert IsDigit(t[n + 1]) && IsDigit(t[n + 2]) && IsDigit(t[n + 3]);
    assert forall i :: 0 <= i < n ==> t[i] == sn[i];
  }

  lemma PrintedDateAt(sn: string, d: string, rest: string, t: string)
    requires IsoDate(d)
    requires t == sn + "." + (Dotted(d) + "." + rest)
    ensures !DateAt(t, |sn|) && DateAt(t, |sn| + 1)
    ensures DateIdentity(t, |sn| + 1).airDate == d
    ensures DateIdentity(t, |sn| + 1).showName == ShowNameFromPrefix(sn + ".")
  {
    var n := |sn| + 1;
    assert forall i :: 0 <= i < 10 ==> t[n + i] == Dotted(d)[i];
    assert t[n - 1] == '.' && t[n + 10] == '.';
    assert t[n..n + 4] == d[..4] && t[n + 5..n + 7] == d[5..7] && t[n + 8..n + 10] == d[8..];
    assert d[..4] + "-" + d[5..7] + "-" + d[8..] == d;
    assert t[..n] == sn + ".";
  }

  lemma FirstDateOfPrinted(sn: string, d: string, rest: string, t: string)
    requires IsoDate(d)
    requires t == sn + "." + (Dotted(d) + "." + rest)
    ensures FirstDate(t) == if HasDate(sn) then FirstDate(sn) else Some(|sn| + 1)
  {
    hide DateAt, DateIdentity;
    forall k: nat | k < |sn|
      ensures DateAt(t, k) <==> DateAt(sn, k)
    {
      NameDateAt(sn, d, rest, t, k);
    }
    PrintedDateAt(sn, d, rest, t);
    if HasDate(sn) {
      FirstIs(t, DateAt, FirstDate(sn).value);
    } else {
      FirstIs(t, DateAt, |sn| + 1);
    }
  }

  lemma DottedDateUnmarked(d: string)
    requires IsoDate(d)
    ensures !HasMarker(Dotted(d))
  {
    NoSNoMarker(Dotted(d));
  }

  /**
   ParseTitle inverts buildDateTitle for every date it accepts, exactly when
   neither the name nor the subtitle that is printed carries an SxxExx marker
   and the name carries no date pattern of its own.
   */
  lemma DatedTitleRoundTrip(name: string, episode: string, airDate: string, quality: string)
    requires IsoDate(airDate) && !HasMarker(quality)
    ensures ParseTitle(BuildDateTitle(name, episode, airDate, quality))
            == EpisodeIdentity(DotsAsSpaces(SanitiseForTitle(name)), 0, 0, airDate)
            <==> NameUnmarked(name) && !HasMarker(DateSubtitle(episode)) && !HasDate(SanitiseForTitle(name))
  {
    hide SanitiseForTitle, DateSubtitle, DateAt;
    var sn, se := SanitiseForTitle(name), DateSubtitle(episode);
    var tail := Tail(se, quality);
    var rest := Dotted(airDate) + "." + tail;
    TailEnds(se, quality);
    TailMarked(se, quality);
    DottedDateUnmarked(airDate);
    DottedUnmarked(Dotted(airDate), tail);
    DottedUnmarked(sn, rest);
    SuffixOfDotted(Dotted(airDate), tail);
    NothingTrimmed(name, rest);
    SanitisedIsClean(name);
    DatedTitleReadBack(sn, airDate, tail);
  }

  lemma DatedTitleReadBack(sn: string, d: string, tail: string)
    requires Clean(sn) && IsoDate(d)
    requires var t := sn + "." + (Dotted(d) + "." + tail); TrimSuffix(TrimSpace(t), ".nzb") == t
    ensures var t := sn + "." + (Dotted(d) + "." + tail);
            ParseTitle(t) == EpisodeIdentity(DotsAsSpaces(sn), 0, 0, d) <==> !HasMarker(t) && !HasDate(sn)
  {
    hide DateAt, MarkerAt, StartsWithMarker;
    var t := sn + "." + (Dotted(d) + "." + tail);
    FirstDateOfPrinted(sn, d, tail, t);
    PrintedDateAt(sn, d, tail, t);
    ShowNameReadBack(sn);
    if !HasMarker(t) && HasDate(sn) {
      assert |ShowNameFromPrefix(t[..FirstDate(sn).value])| < |sn|;
    }
  }

  // ---- what a generated title is read back as ----

  lemma SixthOnward(d: string)
    requires IsoDate(d)
    ensures Cut(d, "-") == Some((d[..4], d[5..]))
    ensures Cut(d[5..], "-") == Some((d[5..7], d[8..]))
    ensures '-' !in d[8..]
  {
    IndexOfHyphen(d, 4);
    IndexOfHyphen(d[5..], 2);
    assert d[5..][3..] == d[8..] && d[5..][..2] == d[5..7];
  }

  lemma {:induction false} IndexOfHyphen(s: string, k: nat)
    requires k < |s| && s[k] == '-' && forall i :: 0 <= i < k ==> IsDigit(s[i])
    ensures IndexOf(s, "-") == Some(k)
  {
    if k > 0 {
      assert s[0] != '-';
      IndexOfHyphen(s[1..], k - 1);
    }
  }

  lemma TwoDigitNumber(s: string)
    requires |s| == 2 && AllDigits(s)
    ensures LeadingNumber(s) == Value(s)
  {
    assert s[0] in s && s[1] in s;
    RunLengthIs(s, 0, IsBlank, 0);
    RunLengthIs(s, 0, IsDigit, 2);
    assert s[0..2] == s;
  }

  /** A special known only by its air date goes out as S00E<MMDD>, and is read back so. */
  lemma DatedSpecialReadBack(p: Programme, quality: string)
    requires !p.tvdbNumbered && IsSpecial(p.episode) && (p.series == 0 || p.episodeNum == 0)
    requires p.position == 0 && IsoDate(p.airDate) && NameUnmarked(p.name)
    ensures ParseTitle(GenerateTitle(p, quality, None).0)
            == EpisodeIdentity(DotsAsSpaces(SanitiseForTitle(p.name)), 0,
                               100 * Value(p.airDate[5..7]) + Value(p.airDate[8..]), "")
  {
    hide IsSpecial, SanitiseForTitle, HasMarker, ParseTitle, BuildSxxExxTitle, LeadingNumber, Cut, IsDateSubtitle;
    var d := p.airDate;
    var number := 100 * Value(d[5..7]) + Value(d[8..]);
    SixthOnward(d);
    TwoDigitNumber(d[5..7]);
    TwoDigitNumber(d[8..]);
    assert SpecialNumber(p) == number;
    NumberedTitleRoundTrip(p.name, p.episode, 0, number, quality);
  }

  /** An override that forces dates sends every dated programme out by its date and custom name, numbered by TheTVDB or not. */
  lemma ForcedDateReadBack(p: Programme, o: ShowOverride, quality: string)
    requires o.forceDateBased && IsoDate(p.airDate) && !HasMarker(quality)
    ensures var name := if o.customName != "" then o.customName else p.name;
            NameUnmarked(name) && !HasDate(SanitiseForTitle(name)) && !HasMarker(DateSubtitle(p.episode))
            <==> ParseTitle(GenerateTitle(p, quality, Some(o)).0)
                 == EpisodeIdentity(DotsAsSpaces(SanitiseForTitle(name)), 0, 0, p.airDate)
  {
    hide SanitiseForTitle, HasMarker, ParseTitle, BuildDateTitle, DateSubtitle, HasDate;
    DatedTitleRoundTrip(NameUnder(p, Some(o)), p.episode, p.airDate, quality);
  }
}
