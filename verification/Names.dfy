/**
 What an ordinary programme's release title is: a name and a subtitle of plain
 words, printed by internal/newznab/titles.go and read back by
 internal/newznab/parse.go.
 */
module Names {
  import opened Text
  import opened Sanitise
  import opened Parse
  import opened Titles
  import opened RoundTrip
  import opened Labels

  // ---- joined words ----

  lemma {:induction false} JoinConcat(a: seq<string>, b: seq<string>)
    requires a != [] && b != []
    ensures Join(a + b, ".") == Join(a, ".") + "." + Join(b, ".")
  {
    if |a| == 1 {
      assert (a + b)[1..] == b;
    } else {
      assert (a + b)[1..] == a[1..] + b;
      JoinConcat(a[1..], b);
    }
  }

  lemma JoinMore(w: string, rest: seq<string>)
    requires rest != []
    ensures Join([w] + rest, ".") == w + "." + Join(rest, ".")
  {
    assert ([w] + rest)[1..] == rest;
  }

  lemma {:induction false} DotsAreSpaces(ws: seq<string>)
    requires TitleWords(ws)
    ensures DotsAsSpaces(Join(ws, ".")) == Join(ws, " ")
  {
    if ws != [] {
      assert ws[0] in ws;
      assert forall i :: 0 <= i < |ws[0]| ==> ws[0][i] in ws[0];
      assert Replace(ws[0], '.', ' ') == ws[0];
      if |ws| > 1 {
        DotsAreSpaces(ws[1..]);
      }
    }
  }

  lemma {:induction false} JoinMarked(ws: seq<string>)
    ensures HasMarker(Join(ws, ".")) <==> exists w :: w in ws && HasMarker(w)
  {
    hide HasMarker;
    if ws == [] {
      NoSNoMarker("");
    } else if |ws| == 1 {
      assert ws[0] in ws;
    } else {
      JoinMarked(ws[1..]);
      DottedUnmarked(ws[0], Join(ws[1..], "."));
      assert ws == [ws[0]] + ws[1..];
      assert forall w :: w in ws <==> w == ws[0] || w in ws[1..];
    }
  }

  // ---- the name is read back ----

  /** A name of plain words is read back as itself, for every number with room in the marker, if and only if no word of it looks like a marker. */
  lemma NameIsReadBack(ws: seq<string>, episode: string, season: int, number: int, quality: string)
    requires TitleWords(ws) && InMarkerRange(season, number)
    ensures ParseTitle(BuildSxxExxTitle(Join(ws, " "), episode, season, number, quality))
            == EpisodeIdentity(Join(ws, " "), season, number, "")
            <==> forall w :: w in ws ==> !HasMarker(w)
  {
    hide HasMarker, ParseTitle, BuildSxxExxTitle, SanitiseForTitle;
    WordsPrintDotted(ws);
    DotsAreSpaces(ws);
    JoinMarked(ws);
    NumberedTitleRoundTrip(Join(ws, " "), episode, season, number, quality);
  }

  /** And with a date, when neither name nor subtitle looks like a marker or, dotted, a date. */
  lemma NameIsReadBackWithDate(ws: seq<string>, episode: string, airDate: string, quality: string)
    requires TitleWords(ws) && IsoDate(airDate) && !HasMarker(quality)
    ensures ParseTitle(BuildDateTitle(Join(ws, " "), episode, airDate, quality))
            == EpisodeIdentity(Join(ws, " "), 0, 0, airDate)
            <==> (forall w :: w in ws ==> !HasMarker(w)) && !HasMarker(DateSubtitle(episode)) && !HasDate(Join(ws, "."))
  {
    hide HasMarker, HasDate, ParseTitle, BuildDateTitle, SanitiseForTitle, DateSubtitle;
    WordsPrintDotted(ws);
    DotsAreSpaces(ws);
    JoinMarked(ws);
    DatedTitleRoundTrip(Join(ws, " "), episode, airDate, quality);
  }

  // ---- the whole title ----

  /** What stands between a title's name and its subtitle. */
  function NumberParts(id: Identity): seq<string> {
    match id
    case Numbered(season, number, _, _) => [Marker(season, number)]
    case Dated(airDate, _) => if |airDate| == 10 then [airDate[..4], airDate[5..7], airDate[8..]] else [Dotted(airDate)]
    case TitleOnly(_) => []
  }

  /**
   A release title is its parts, in this order, with dots between: the words of
   the name, the marker or the date's year, month and day, the words of the
   subtitle, the quality and the suffix.
   */
  lemma TitleIsItsParts(name: seq<string>, id: Identity, subtitle: seq<string>, quality: string)
    requires TitleWords(name) && name != [] && TitleWords(subtitle) && id.subtitle == Join(subtitle, " ")
    requires id.Dated? ==> IsoDate(id.airDate)
    ensures Print(Join(name, " "), id, quality)
            == Join(name + NumberParts(id) + subtitle + [quality, "WEB-DL", "AAC", "H264-iParr"], ".")
  {
    hide SanitiseForTitle, TitleWords, Marker, Join, Tail, Print, NumberParts, IsoDate, StripSeriesPrefix, IsDateLikeSubtitle;
    var rest := subtitle + [quality, "WEB-DL", "AAC", "H264-iParr"];
    WordsPrintDotted(name);
    WordsPrintDotted(subtitle);
    SubtitleStays(subtitle);
    SubtitleIsNoDate(subtitle);
    TailIsJoined(subtitle, quality);
    PrintedAs(Join(name, " "), id, quality);
    NumberIsJoined(id);
    PartsAreJoined(name, NumberParts(id), rest);
    assert name + NumberParts(id) + subtitle + [quality, "WEB-DL", "AAC", "H264-iParr"] == name + NumberParts(id) + rest;
  }

  lemma PartsAreJoined(name: seq<string>, number: seq<string>, rest: seq<string>)
    requires name != [] && rest != []
    ensures Join(name + number + rest, ".")
            == Join(name, ".") + "." + (if number == [] then Join(rest, ".") else Join(number, ".") + "." + Join(rest, "."))
  {
    hide Join;
    if number == [] {
      assert name + number + rest == name + rest;
      JoinConcat(name, rest);
    } else {
      assert name + number + rest == name + (number + rest);
      JoinConcat(name, number + rest);
      JoinConcat(number, rest);
    }
  }

  /** The three builders, over what they print of the subtitle. */
  lemma PrintedAs(name: string, id: Identity, quality: string)
    requires id.Dated? ==> !IsDateLikeSubtitle(id.subtitle)
    requires StripSeriesPrefix(id.subtitle) == id.subtitle
    ensures var tail := Tail(SanitiseForTitle(id.subtitle), quality);
            Print(name, id, quality) == SanitiseForTitle(name) + "." +
              match id
              case Numbered(season, number, _, _) => Marker(season, number) + "." + tail
              case Dated(airDate, _) => Dotted(airDate) + "." + tail
              case TitleOnly(_) => tail
  {
    hide SanitiseForTitle, StripSeriesPrefix, IsDateLikeSubtitle, Tail;
    if id.Numbered? {
      NumberedTitleIs(name, id.subtitle, id.season, id.number, quality);
    }
  }

  lemma NumberIsJoined(id: Identity)
    requires id.Dated? ==> IsoDate(id.airDate)
    ensures NumberParts(id) == [] <==> id.TitleOnly?
    ensures id.Numbered? ==> Join(NumberParts(id), ".") == Marker(id.season, id.number)
    ensures id.Dated? ==> Join(NumberParts(id), ".") == Dotted(id.airDate)
  {
    if id.Dated? {
      var d := id.airDate;
      var parts := [d[..4], d[5..7], d[8..]];
      JoinMore(d[5..7], [d[8..]]);
      JoinMore(d[..4], [d[5..7]] + [d[8..]]);
      assert parts == [d[..4]] + ([d[5..7]] + [d[8..]]);
      assert Dotted(d) == d[..4] + "." + (d[5..7] + "." + d[8..]);
    }
  }

  lemma TailIsJoined(subtitle: seq<string>, quality: string)
    requires TitleWords(subtitle)
    ensures Tail(Join(subtitle, "."), quality) == Join(subtitle + [quality, "WEB-DL", "AAC", "H264-iParr"], ".")
  {
    var tail := [quality, "WEB-DL", "AAC", "H264-iParr"];
    SuffixIsJoined();
    JoinMore(quality, ["WEB-DL", "AAC", "H264-iParr"]);
    assert tail == [quality] + ["WEB-DL", "AAC", "H264-iParr"];
    if subtitle == [] {
      assert subtitle + tail == tail;
    } else {
      JoinConcat(subtitle, tail);
      WordsAreClean(subtitle);
    }
  }

  lemma SuffixIsJoined()
    ensures Join(["WEB-DL", "AAC", "H264-iParr"], ".") == SUFFIX
  {
    JoinMore("AAC", ["H264-iParr"]);
    JoinMore("WEB-DL", ["AAC", "H264-iParr"]);
    assert ["AAC"] + ["H264-iParr"] == ["AAC", "H264-iParr"];
    assert ["WEB-DL"] + ["AAC", "H264-iParr"] == ["WEB-DL", "AAC", "H264-iParr"];
  }

  // ---- a subtitle of plain words is left alone ----

  lemma {:induction false} JoinedChars(ws: seq<string>)
    requires TitleWords(ws)
    ensures forall c :: c in Join(ws, " ") ==> IsAlnum(c) || c == ' '
  {
    if ws != [] {
      assert ws[0] in ws;
      if |ws| > 1 {
        JoinedChars(ws[1..]);
      }
    }
  }

  lemma SubtitleStays(ws: seq<string>)
    requires TitleWords(ws)
    ensures StripSeriesPrefix(Join(ws, " ")) == Join(ws, " ")
  {
    JoinedChars(ws);
    NoColonNoPrefix(Join(ws, " "));
  }

  lemma NoColonNoPrefix(s: string)
    requires ':' !in s
    ensures StripSeriesPrefix(s) == s
  {
    assert forall i :: 0 <= i < |s| ==> s[i] != ':';
  }

  lemma SubtitleIsNoDate(ws: seq<string>)
    requires TitleWords(ws)
    ensures !IsDateLikeSubtitle(Join(ws, " "))
  {
    JoinedChars(ws);
    var s := Join(ws, " ");
    NoSeparatorNoDate(s);
    NoColonNoComposite(s);
  }

  lemma NoSeparatorNoDate(s: string)
    requires forall c :: c in s ==> IsAlnum(c) || c == ' '
    ensures !IsDateSubtitle(s)
  {
    var t := Trim(s, IsBlank);
    forall i | 0 <= i < |t|
      ensures t[i] !in "/.-"
    {
      TrimKeeps(s, t[i]);
      assert IsAlnum(t[i]) || t[i] == ' ';
    }
  }

  lemma TrimKeeps(s: string, c: char)
    requires c in Trim(s, IsBlank)
    ensures c in s
  {
    var left := TrimLeft(s, IsBlank);
    assert Trim(s, IsBlank) <= left;
    assert c in left;
  }

  lemma NoColonNoComposite(s: string)
    requires forall c :: c in s ==> IsAlnum(c) || c == ' '
    ensures !IsCompositeDateSubtitle(s)
  {
    if IndexOf(s, ":").Some? {
      var k := IndexOf(s, ":").value;
      assert s[k..k + 1] == ":";
      assert s[k] in s;
    }
  }

  /** In a title by date, a subtitle that is a date, or a date under a label, is dropped: the title carries the air date once. */
  lemma DateIsPrintedOnce(name: seq<string>, airDate: string, day: string, a: char, month: string, b: char, year: string,
                          under: string, quality: string)
    requires TitleWords(name) && name != [] && IsoDate(airDate)
    requires Figures(day, 1, 2) && Figures(month, 1, 2) && Figures(year, 4, 4) && a in "/.-" && b in "/.-"
    requires under != "" && ':' !in under
    ensures var date := day + [a] + month + [b] + year;
            && Print(Join(name, " "), Dated(airDate, date), quality)
               == Print(Join(name, " "), Dated(airDate, under + ":" + date), quality)
               == Join(name + [airDate[..4], airDate[5..7], airDate[8..]] + [quality, "WEB-DL", "AAC", "H264-iParr"], ".")
  {
    hide SanitiseForTitle, IsDateSubtitle, IsCompositeDateSubtitle, Figures, TitleWords, Join;
    var date := day + [a] + month + [b] + year;
    DateSubtitles(day, a, month, b, year, under);
    assert Join([], " ") == "" by { NothingJoined(); }
    assert TitleWords([]) by { NoWords(); }
    TitleIsItsParts(name, Dated(airDate, ""), [], quality);
    NothingPrinted(Join(name, " "), airDate, date, quality);
    NothingPrinted(Join(name, " "), airDate, under + ":" + date, quality);
    assert NumberParts(Dated(airDate, "")) == [airDate[..4], airDate[5..7], airDate[8..]];
    assert name + NumberParts(Dated(airDate, "")) + [] + [quality, "WEB-DL", "AAC", "H264-iParr"]
        == name + NumberParts(Dated(airDate, "")) + [quality, "WEB-DL", "AAC", "H264-iParr"];
  }

  lemma NothingJoined()
    ensures Join([], " ") == ""
  {
  }

  lemma NoWords()
    ensures TitleWords([])
  {
  }

  lemma NothingPrinted(name: string, airDate: string, date: string, quality: string)
    requires IsDateLikeSubtitle(date)
    ensures Print(name, Dated(airDate, date), quality) == Print(name, Dated(airDate, ""), quality)
  {
    hide SanitiseForTitle, IsDateLikeSubtitle;
    assert SanitiseForTitle("") == "" by { CleanIsUnchanged(""); }
  }

  // ---- which tier a programme goes out in ----

  /**
   With no override and no number of TheTVDB's: both numbers go out as they
   are; a special without both by its position, or by its date when it has
   none; any other without both by its air date if its subtitle is a date, else
   by its position in Series 1, else by its air date, else with its title alone.
   */
  lemma WhatGoesOut(p: Programme)
    requires !p.tvdbNumbered && p.series >= 0 && p.episodeNum >= 0 && p.position >= 0
    ensures p.series > 0 && p.episodeNum > 0 ==> IdentityOf(p, None) == Numbered(p.series, p.episodeNum, p.episode, TierFull)
    ensures !(p.series > 0 && p.episodeNum > 0) ==>
              && (IsSpecial(p.episode) && p.position > 0 ==> IdentityOf(p, None) == Numbered(0, p.position, p.episode, TierFull))
              && (IsSpecial(p.episode) && p.position == 0 && IsoDate(p.airDate) ==>
                    IdentityOf(p, None)
                    == Numbered(0, 100 * Value(p.airDate[5..7]) + Value(p.airDate[8..]), p.episode, TierFull))
              && (!IsSpecial(p.episode) && p.airDate != "" && IsDateSubtitle(p.episode) ==>
                    IdentityOf(p, None) == Dated(p.airDate, ""))
              && (!IsSpecial(p.episode) && !IsDateSubtitle(p.episode) && p.position > 0 ==>
                    IdentityOf(p, None) == Numbered(1, p.position, p.episode, TierPosition))
              && (!IsSpecial(p.episode) && !IsDateSubtitle(p.episode) && p.position == 0 && p.airDate != "" ==>
                    IdentityOf(p, None) == Dated(p.airDate, p.episode))
              && (p.position == 0 && p.airDate == "" ==> IdentityOf(p, None) == TitleOnly(p.episode))
  {
    hide IsSpecial, IsDateSubtitle, LeadingNumber, Cut, Value;
    if IsoDate(p.airDate) {
      SixthOnward(p.airDate);
      TwoDigitNumber(p.airDate[5..7]);
      TwoDigitNumber(p.airDate[8..]);
    }
  }

  lemma NoLetterNoWord(s: string, word: string)
    requires word != "" && 'a' <= word[0] <= 'z' && forall c :: c in s ==> !('a' <= LowerChar(c) <= 'z')
    ensures !ContainsWord(s, word)
  {
    forall i | 0 <= i <= |s|
      ensures !WordAt(s, i, word)
    {
      if i + |word| <= |s| {
        assert Lower(s[i..i + |word|])[0] == LowerChar(s[i]) && s[i] in s;
      }
    }
  }

  lemma NoLetterNoSpecial(s: string)
    requires forall c :: c in s ==> !('a' <= LowerChar(c) <= 'z')
    ensures !IsSpecial(s)
  {
    hide ContainsWord;
    NoLetterNoWord(s, "special");
    NoLetterNoWord(s, "christmas");
    NoLetterNoWord(s, "easter");
    NoLetterNoWord(s, "new year");
    NoLetterNoWord(s, "halloween");
    NoLetterNoWord(s, "bonfire");
  }

  /** A daily soap, its subtitle the day in figures, is read back with its air date and no number, wherever it stands in the run. */
  lemma SoapIsReadBackByDate(p: Programme, day: string, month: string, year: string, quality: string)
    requires !p.tvdbNumbered && p.series >= 0 && p.episodeNum >= 0 && p.position >= 0 && !(p.series > 0 && p.episodeNum > 0)
    requires Figures(day, 1, 2) && Figures(month, 1, 2) && Figures(year, 4, 4)
    requires p.episode == day + ['/'] + month + ['/'] + year && IsoDate(p.airDate) && !HasMarker(quality)
    requires NameUnmarked(p.name) && !HasDate(SanitiseForTitle(p.name))
    ensures ParseTitle(GenerateTitle(p, quality, None).0) == EpisodeIdentity(DotsAsSpaces(SanitiseForTitle(p.name)), 0, 0, p.airDate)
  {
    hide HasMarker, HasDate, SanitiseForTitle, ParseTitle, BuildDateTitle, IsSpecial, IsDateSubtitle, Figures, DateSubtitle, IsoDate, IdentityOf;
    DateSubtitles(day, '/', month, '/', year, "");
    FiguresAreNoLetters(day, month, year);
    NoLetterNoSpecial(p.episode);
    assert p.airDate != "" by { IsoIsSomething(p.airDate); }
    WhatGoesOut(p);
    NoSubtitle();
    DatedTitleRoundTrip(p.name, "", p.airDate, quality);
  }

  lemma IsoIsSomething(d: string)
    requires IsoDate(d)
    ensures d != ""
  {
  }

  lemma FiguresAreNoLetters(day: string, month: string, year: string)
    requires Figures(day, 1, 2) && Figures(month, 1, 2) && Figures(year, 4, 4)
    ensures forall c :: c in day + ['/'] + month + ['/'] + year ==> !('a' <= LowerChar(c) <= 'z')
  {
    assert forall c :: c in day + ['/'] + month + ['/'] + year ==> IsDigit(c) || c == '/';
  }

  lemma NoSubtitle()
    ensures !HasMarker(DateSubtitle(""))
  {
    hide HasMarker;
    CleanIsUnchanged("");
    NoSNoMarker("");
  }
}
