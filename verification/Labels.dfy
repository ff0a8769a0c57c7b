/**
 How a subtitle is taken apart: internal/newznab/tvdb.go, seriesLabel, storyPart
 and reVersionSuffix, and internal/newznab/titles.go, the subtitles that are
 dates and those of specials.
 */
module Labels {
  import opened Text
  import opened Titles
  import opened TVDB

  // ---- cutting at a colon ----

  lemma {:induction false} CutAtColon(a: string, b: string)
    requires ':' !in a
    ensures Cut(a + ": " + b, ": ") == Some((a, b))
  {
    var s := a + ": " + b;
    FirstColon(a, b);
    assert s[..|a|] == a && s[|a| + 2..] == b;
  }

  lemma {:induction false} FirstColon(a: string, b: string)
    requires ':' !in a
    ensures IndexOf(a + ": " + b, ": ") == Some(|a|)
  {
    var s := a + ": " + b;
    if a == "" {
      assert s[..2] == ": ";
    } else {
      assert s[0] == a[0] && a[0] in a;
      assert s[1..] == a[1..] + ": " + b;
      FirstColon(a[1..], b);
    }
  }

  lemma CutHasColon(s: string)
    ensures IndexOf(s, ": ").Some? ==> ':' in s
  {
    if IndexOf(s, ": ").Some? {
      var k := IndexOf(s, ": ").value;
      assert s[k..k + 2][0] == s[k] == ':';
    }
  }

  lemma NoColonNoCut(s: string)
    requires ':' !in s
    ensures Cut(s, ": ") == None
  {
    CutHasColon(s);
  }

  lemma NumberedStart(n: nat, rest: string)
    ensures StartsWithEpisodeNumber(Decimal(n) + "." + rest)
  {
    var d := Decimal(n);
    var s := d + "." + rest;
    forall k | 0 <= k < |d|
      ensures IsDigit(s[k])
    {
      assert s[k] == d[k] && d[k] in d;
    }
    RunLengthIs(s, 0, IsDigit, |d|);
  }

  lemma UnnumberedStart(s: string)
    requires s == "" || !IsDigit(s[0])
    ensures !StartsWithEpisodeNumber(s)
  {
  }

  /** An episode numbered under a label, "Part I: 13. Crystal Ice Mirrors", has that label; what only follows a label has none. */
  lemma SeriesLabelMeans(name: string, n: nat, title: string)
    requires ':' !in name
    ensures SeriesLabel(name + ": " + (Decimal(n) + "." + title)) == name
    ensures title == "" || !IsDigit(title[0]) ==> SeriesLabel(name + ": " + title) == ""
    ensures SeriesLabel(name) == ""
  {
    hide Cut, StartsWithEpisodeNumber, Decimal;
    CutAtColon(name, Decimal(n) + "." + title);
    CutAtColon(name, title);
    NoColonNoCut(name);
    NumberedStart(n, title);
    if title == "" || !IsDigit(title[0]) {
      UnnumberedStart(title);
    }
  }

  lemma NamedPart(n: nat)
    ensures IsEpisodePart("Episode " + Decimal(n))
  {
    var s, word := "Episode " + Decimal(n), "episode";
    assert word <= Lower(s);
    assert s[7] == ' ' && s[8] == Decimal(n)[0] && Decimal(n)[0] in Decimal(n);
    RunLengthIs(s, 7, IsBlank, 1);
  }

  /**
   "Season 4: The Tenth Planet: Episode 1" numbers a part of a story, for every
   label, story and number; with an episode number before the story, or with no
   story, it does not.
   */
  lemma StoryPartMeans(name: string, story: string, m: nat, n: nat)
    requires ':' !in name && ':' !in story && (story == "" || !IsDigit(story[0]))
    ensures StoryPart(name + ": " + (story + ": " + ("Episode " + Decimal(n))))
    ensures !StoryPart(name + ": " + ((Decimal(m) + "." + story) + ": " + ("Episode " + Decimal(n))))
    ensures !StoryPart(name + ": " + story)
  {
    hide Cut, StartsWithEpisodeNumber, IsEpisodePart, Decimal;
    var part := "Episode " + Decimal(n);
    var numbered := Decimal(m) + "." + story;
    assert ':' !in numbered;
    CutAtColon(name, story + ": " + part);
    CutAtColon(story, part);
    CutAtColon(name, numbered + ": " + part);
    CutAtColon(numbered, part);
    CutAtColon(name, story);
    NoColonNoCut(story);
    NamedPart(n);
    NumberedStart(m, story);
    UnnumberedStart(story);
  }

  // ---- versions ----

  /** A subtitle is another version's exactly when it ends in one of the three marks, and then of what stands before. */
  lemma VersionBaseMeans(s: string)
    ensures VersionBase(s + " - Signed") == s && VersionBase(s + " (Animated)") == s && VersionBase(s + " (Reconstruction)") == s
    ensures VersionBase(s) != s <==>
              HasSuffix(s, " - Signed") || HasSuffix(s, " (Animated)") || HasSuffix(s, " (Reconstruction)")
  {
    SuffixTaken(s, " - Signed");
    SuffixTaken(s, " (Animated)");
    SuffixTaken(s, " (Reconstruction)");
    LastOf(s, " - Signed");
    LastOf(s, " (Animated)");
    LastOf(s, " (Reconstruction)");
  }

  lemma SuffixTaken(s: string, suffix: string)
    ensures HasSuffix(s + suffix, suffix) && TrimSuffix(s + suffix, suffix) == s
  {
    assert (s + suffix)[|s|..] == suffix;
  }

  /** The three marks end in different letters, two from the end. */
  lemma LastOf(s: string, suffix: string)
    requires suffix in [" - Signed", " (Animated)", " (Reconstruction)"]
    ensures HasSuffix(s + suffix, " - Signed") ==> suffix == " - Signed"
    ensures HasSuffix(s + suffix, " (Animated)") ==> suffix == " (Animated)"
  {
    LetterOf(s + suffix, " - Signed");
    LetterOf(s + suffix, " (Animated)");
    LetterOf(s + suffix, suffix);
    SuffixTaken(s, suffix);
  }

  lemma LetterOf(t: string, suffix: string)
    requires |suffix| >= 3
    ensures HasSuffix(t, suffix) ==> |t| >= 3 && t[|t| - 3] == suffix[|suffix| - 3]
  {
    if HasSuffix(t, suffix) {
      assert t[|t| - |suffix|..][|suffix| - 3] == t[|t| - 3];
    }
  }

  // ---- subtitles that are dates ----

  predicate Figures(s: string, atLeast: nat, atMost: nat) {
    atLeast <= |s| <= atMost && AllDigits(s)
  }

  lemma DigitsFrom(s: string, i: nat, part: string)
    requires i + |part| <= |s| && s[i..i + |part|] == part && AllDigits(part)
    requires i + |part| == |s| || !IsDigit(s[i + |part|])
    ensures RunLength(s, i, IsDigit) == |part|
  {
    forall k | i <= k < i + |part|
      ensures IsDigit(s[k])
    {
      assert s[k] == part[k - i];
    }
    RunLengthIs(s, i, IsDigit, |part|);
  }

  predicate DateText(s: string, day: string, a: char, month: string, b: char, year: string) {
    && Figures(day, 1, 2) && Figures(month, 1, 2) && Figures(year, 4, 4) && a in "/.-" && b in "/.-"
    && s == day + [a] + month + [b] + year
  }

  lemma DayDigits(s: string, day: string, a: char, month: string, b: char, year: string)
    requires DateText(s, day, a, month, b, year)
    ensures RunLength(s, 0, IsDigit) == |day| && |day| < |s| && s[|day|] == a
  {
    var rest := [a] + month + [b] + year;
    DigitsBetween("", day, rest);
    assert s == "" + day + rest;
  }

  lemma MonthDigits(s: string, day: string, a: char, month: string, b: char, year: string)
    requires DateText(s, day, a, month, b, year)
    ensures |day| + 1 + |month| < |s| && s[|day| + 1 + |month|] == b
    ensures RunLength(s, |day| + 1, IsDigit) == |month|
  {
    hide RunLength, AllDigits, IsDigit, DateText;
    MonthIn(s, day, a, month, b, year);
    MonthAt(day + [a], month, b, year);
  }

  lemma MonthIn(s: string, day: string, a: char, month: string, b: char, year: string)
    requires DateText(s, day, a, month, b, year)
    ensures s == (day + [a]) + month + ([b] + year) && AllDigits(month) && b in "/.-"
  {
    hide AllDigits;
  }

  lemma MonthAt(before: string, month: string, b: char, year: string)
    requires AllDigits(month) && b in "/.-"
    ensures var s := before + month + ([b] + year);
            |before| + |month| < |s| && s[|before| + |month|] == b && RunLength(s, |before|, IsDigit) == |month|
  {
    assert !IsDigit(b) && ([b] + year)[0] == b;
    DigitsBetween(before, month, [b] + year);
  }

  lemma YearDigits(s: string, day: string, a: char, month: string, b: char, year: string)
    requires DateText(s, day, a, month, b, year)
    ensures |s| == |day| + |month| + 6 && RunLength(s, |day| + |month| + 2, IsDigit) == 4
  {
    var before := day + [a] + month + [b];
    DigitsBetween(before, year, "");
    assert s == before + year + "";
  }

  lemma DateTrimmed(s: string, day: string, a: char, month: string, b: char, year: string)
    requires DateText(s, day, a, month, b, year)
    ensures Trim(s, IsBlank) == s
  {
    assert day <= s && s[|s| - 4..] == year;
    NotBlankEdges(s, day, year);
  }

  lemma DigitsBetween(before: string, digits: string, after: string)
    requires AllDigits(digits) && (after == "" || !IsDigit(after[0]))
    ensures RunLength(before + digits + after, |before|, IsDigit) == |digits|
  {
    var s := before + digits + after;
    assert s[|before|..|before| + |digits|] == digits;
    DigitsFrom(s, |before|, digits);
  }

  lemma NotBlankEdges(s: string, day: string, year: string)
    requires day != "" && year != "" && AllDigits(day) && AllDigits(year) && day <= s && HasSuffix(s, year)
    ensures Trim(s, IsBlank) == s
  {
    assert s[0] == day[0] && day[0] in day;
    assert s[|s| - 1] == s[|s| - |year|..][|year| - 1] && year[|year| - 1] in year;
    TrimNothing(s, IsBlank);
  }

  /** A subtitle of a day, a month and a year, with slashes, dots or hyphens between, is a date, and with a label before it a date under a label. */
  lemma DateSubtitles(day: string, a: char, month: string, b: char, year: string, name: string)
    requires Figures(day, 1, 2) && Figures(month, 1, 2) && Figures(year, 4, 4) && a in "/.-" && b in "/.-"
    ensures IsDateSubtitle(day + [a] + month + [b] + year)
    ensures name != "" && ':' !in name ==> IsDateLikeSubtitle(name + ":" + (day + [a] + month + [b] + year))
  {
    hide RunLength, Trim, IndexOf;
    var s := day + [a] + month + [b] + year;
    assert DateText(s, day, a, month, b, year);
    DayDigits(s, day, a, month, b, year);
    MonthDigits(s, day, a, month, b, year);
    YearDigits(s, day, a, month, b, year);
    DateTrimmed(s, day, a, month, b, year);
    assert IsDateSubtitle(s);
    hide IsDateSubtitle;
    if name != "" && ':' !in name {
      OneColon(name, s);
      assert (name + ":" + s)[|name| + 1..] == s;
    }
  }

  lemma {:induction false} OneColon(a: string, b: string)
    requires ':' !in a
    ensures IndexOf(a + ":" + b, ":") == Some(|a|)
  {
    var s := a + ":" + b;
    if a == "" {
      assert s[..1] == ":";
    } else {
      assert s[0] == a[0] && a[0] in a;
      assert s[1..] == a[1..] + ":" + b;
      OneColon(a[1..], b);
    }
  }

  // ---- specials ----

  predicate EndsWord(before: string) {
    before == "" || !IsWord(before[|before| - 1])
  }

  predicate StartsWord(after: string) {
    after == "" || !IsWord(after[0])
  }

  /** The subtitle has the word, in any case, as a word. */
  ghost predicate HasWord(s: string, word: string) {
    exists before, w, after :: s == before + w + after && EndsWord(before) && StartsWord(after) && Lower(w) == word
  }

  lemma ContainsWordMeans(s: string, word: string)
    ensures ContainsWord(s, word) <==> HasWord(s, word)
  {
    hide IsWord, LowerChar;
    if HasWord(s, word) {
      var before, w, after :| s == before + w + after && EndsWord(before) && StartsWord(after) && Lower(w) == word;
      assert s[|before|..|before| + |w|] == w;
      assert WordAt(s, |before|, word);
    }
    if ContainsWord(s, word) {
      var i :| 0 <= i <= |s| && WordAt(s, i, word);
      var j := i + |word|;
      assert s == s[..i] + s[i..j] + s[j..];
      assert EndsWord(s[..i]) && StartsWord(s[j..]) && Lower(s[i..j]) == word;
    }
  }

  /** A subtitle is a special's exactly when one of the six words stands in it. */
  lemma SpecialMeans(s: string)
    ensures IsSpecial(s) <==>
              || HasWord(s, "special") || HasWord(s, "christmas") || HasWord(s, "easter")
              || HasWord(s, "new year") || HasWord(s, "halloween") || HasWord(s, "bonfire")
  {
    hide ContainsWord, HasWord;
    ContainsWordMeans(s, "special");
    ContainsWordMeans(s, "christmas");
    ContainsWordMeans(s, "easter");
    ContainsWordMeans(s, "new year");
    ContainsWordMeans(s, "halloween");
    ContainsWordMeans(s, "bonfire");
  }
}
