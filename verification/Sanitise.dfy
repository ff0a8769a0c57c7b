/**
 Turning a human-readable name into a release-title fragment:
 internal/newznab/titles.go, sanitiseForTitle.
 */
module Sanitise {
  import opened Text

  /** What titleTransliterator puts in place of one character. */
  function Transliterate(c: char): string {
    if c == '\U{60}' || c == '\U{B4}' || '\U{2018}' <= c <= '\U{2019}' || '\U{201C}' <= c <= '\U{201D}' then ""
    else if '\U{2013}' <= c <= '\U{2014}' || c == '\U{2212}' then "-"
    else if c == '\U{DF}' then "ss"
    else if c == '\U{C6}' then "AE"
    else if c == '\U{E6}' then "ae"
    else if c == '\U{152}' then "OE"
    else if c == '\U{153}' then "oe"
    else if '\U{D2}' <= c <= '\U{D6}' || c == '\U{D8}' || c == '\U{14C}' then "O"
    else if '\U{F2}' <= c <= '\U{F6}' || c == '\U{F8}' || c == '\U{14D}' then "o"
    else if c == '\U{DE}' then "Th"
    else if c == '\U{FE}' then "th"
    else if '\U{C0}' <= c <= '\U{C5}' || c == '\U{100}' then "A"
    else if '\U{C8}' <= c <= '\U{CB}' || c == '\U{112}' then "E"
    else if '\U{CC}' <= c <= '\U{CF}' || c == '\U{12A}' then "I"
    else if '\U{D9}' <= c <= '\U{DC}' || c == '\U{16A}' then "U"
    else if c == '\U{DD}' then "Y"
    else if '\U{E0}' <= c <= '\U{E5}' || c == '\U{101}' then "a"
    else if '\U{E8}' <= c <= '\U{EB}' || c == '\U{113}' then "e"
    else if '\U{EC}' <= c <= '\U{EF}' || c == '\U{12B}' then "i"
    else if '\U{F9}' <= c <= '\U{FC}' || c == '\U{16B}' then "u"
    else if c == '\U{FD}' || c == '\U{FF}' then "y"
    else if c == '\U{C7}' then "C"
    else if c == '\U{E7}' then "c"
    else if c == '\U{D1}' then "N"
    else if c == '\U{F1}' then "n"
    else [c]
  }

  /** strings.Replacer over single characters. */
  function Substitute(s: string, with: char -> string): string {
    if s == [] then [] else with(s[0]) + Substitute(s[1..], with)
  }

  function AmpersandAndApostrophe(c: char): string {
    if c == '&' then "and" else if c == '\'' then "" else [c]
  }

  /** What reUnsafe keeps. */
  predicate IsSafe(c: char) {
    IsAlnum(c) || c == '.' || c == '-' || c == ' '
  }

  function KeepSafe(s: string): (t: string)
    ensures forall c :: c in t ==> IsSafe(c)
  {
    if s == [] then [] else if IsSafe(s[0]) then [s[0]] + KeepSafe(s[1..]) else KeepSafe(s[1..])
  }

  /** reMultiDot: a run of dots becomes one. */
  function CollapseDots(s: string): (t: string)
    ensures forall c :: c in t ==> c in s
    ensures NoDoubledDot(t)
    ensures s != [] ==> t != [] && t[0] == s[0]
  {
    if |s| < 2 then s
    else if s[0] == '.' && s[1] == '.' then CollapseDots(s[1..])
    else [s[0]] + CollapseDots(s[1..])
  }

  predicate IsDot(c: char) {
    c == '.'
  }

  function SanitiseForTitle(s: string): string {
    var folded := Substitute(Substitute(TrimSpace(s), Transliterate), AmpersandAndApostrophe);
    Trim(CollapseDots(Replace(KeepSafe(folded), ' ', '.')), IsDot)
  }

  predicate NoDoubledDot(s: string) {
    forall i :: 0 <= i < |s| - 1 ==> !(s[i] == '.' && s[i + 1] == '.')
  }

  /** A title fragment: only letters, digits, dots and hyphens, no doubled dot, no dot at an edge. */
  predicate Clean(s: string) {
    && (forall c :: c in s ==> IsAlnum(c) || c == '.' || c == '-')
    && NoDoubledDot(s)
    && (s != [] ==> s[0] != '.' && s[|s| - 1] != '.')
  }

  lemma SanitisedIsClean(s: string)
    ensures Clean(SanitiseForTitle(s))
  {
    var folded := Substitute(Substitute(TrimSpace(s), Transliterate), AmpersandAndApostrophe);
    var kept := KeepSafe(folded);
    var spaced := Replace(kept, ' ', '.');
    var dotted := CollapseDots(spaced);
    forall c | c in spaced
      ensures IsAlnum(c) || c == '.' || c == '-'
    {
      var i :| 0 <= i < |spaced| && spaced[i] == c;
      assert kept[i] in kept;
    }
    var left := TrimLeft(dotted, IsDot);
    assert left != [] ==> left[0] != '.';
    assert Trim(dotted, IsDot) <= left;
  }

  lemma {:induction false} SubstituteNothing(s: string, with: char -> string)
    requires forall c :: c in s ==> with(c) == [c]
    ensures Substitute(s, with) == s
  {
    if s != [] {
      SubstituteNothing(s[1..], with);
    }
  }

  lemma {:induction false} KeepSafeKeepsAll(s: string)
    requires forall c :: c in s ==> IsSafe(c)
    ensures KeepSafe(s) == s
  {
    if s != [] {
      KeepSafeKeepsAll(s[1..]);
    }
  }

  lemma {:induction false} CollapseNothing(s: string)
    requires NoDoubledDot(s)
    ensures CollapseDots(s) == s
  {
    if |s| >= 2 {
      CollapseNothing(s[1..]);
    }
  }

  lemma SubstitutesNothing(s: string)
    requires forall c :: c in s ==> IsAlnum(c) || c == '.' || c == '-'
    ensures Substitute(Substitute(s, Transliterate), AmpersandAndApostrophe) == s
  {
    SubstituteNothing(s, Transliterate);
    SubstituteNothing(s, AmpersandAndApostrophe);
  }

  lemma CleanIsUnchanged(s: string)
    requires Clean(s)
    ensures SanitiseForTitle(s) == s
  {
    assert s != [] ==> s[0] in s && s[|s| - 1] in s;
    TrimNothing(s, IsSpace);
    SubstitutesNothing(s);
    CleanIsKept(s);
  }

  lemma CleanIsKept(s: string)
    requires Clean(s)
    ensures Trim(CollapseDots(Replace(KeepSafe(s), ' ', '.')), IsDot) == s
  {
    KeepSafeKeepsAll(s);
    forall i | 0 <= i < |s|
      ensures s[i] != ' '
    {
      assert s[i] in s;
    }
    assert Replace(s, ' ', '.') == s;
    CollapseNothing(s);
    TrimNothing(s, IsDot);
  }

  /** The fragments sanitiseForTitle leaves alone are exactly the clean ones, so it is idempotent. */
  lemma SanitiseFixpoints(s: string)
    ensures SanitiseForTitle(s) == s <==> Clean(s)
    ensures SanitiseForTitle(SanitiseForTitle(s)) == SanitiseForTitle(s)
  {
    SanitisedIsClean(s);
    if Clean(s) {
      CleanIsUnchanged(s);
    }
    CleanIsUnchanged(SanitiseForTitle(s));
  }

  // ---- what becomes of each character ----

  /** What one character contributes, before doubled and edge dots go. */
  function Shown(c: char): string {
    Replace(KeepSafe(Substitute(Transliterate(c), AmpersandAndApostrophe)), ' ', '.')
  }

  /** The characters with an ASCII analogue: the Latin-1 letters but eth, the long vowels and the dashes. */
  predicate HasAnalogue(c: char) {
    || ('À' <= c <= 'ÿ' && c != 'Ð' && c != 'ð' && c != '×' && c != '÷')
    || c in "ĀĒĪŌŪ" || c in "āēīōū" || c in "Œœ" || c in "–—−"
  }

  /**
   Letters, digits, dots and hyphens stay, a space becomes a dot, an ampersand
   its word and a dash a hyphen; quotation marks go, and so does everything
   else that has no ASCII analogue.
   */
  lemma ShownIs(c: char)
    ensures IsAlnum(c) || c == '.' || c == '-' ==> Shown(c) == [c]
    ensures c == ' ' ==> Shown(c) == "."
    ensures c == '&' ==> Shown(c) == "and"
    ensures c in "–—−" ==> Shown(c) == "-"
    ensures c in "'`´‘’“”" ==> Shown(c) == ""
    ensures !IsSafe(c) && c != '&' && !HasAnalogue(c) ==> Shown(c) == ""
  {
    hide Shown, Transliterate, HasAnalogue;
    ShownBy(c);
    DashesAndQuotesFolded(c);
    AsciiKept(c);
    UnlistedKept(c);
  }

  /** An accented letter becomes its base letter, and a ligature its letters. */
  lemma AccentsShown(c: char)
    ensures c in "ÀÁÂÃÄÅĀ" ==> Shown(c) == "A"
    ensures c in "ÈÉÊËĒ" ==> Shown(c) == "E"
    ensures c in "ÌÍÎÏĪ" ==> Shown(c) == "I"
    ensures c in "ÒÓÔÕÖØŌ" ==> Shown(c) == "O"
    ensures c in "ÙÚÛÜŪ" ==> Shown(c) == "U"
    ensures c in "àáâãäåā" ==> Shown(c) == "a"
    ensures c in "èéêëē" ==> Shown(c) == "e"
    ensures c in "ìíîïī" ==> Shown(c) == "i"
    ensures c in "òóôõöøō" ==> Shown(c) == "o"
    ensures c in "ùúûüū" ==> Shown(c) == "u"
    ensures c in "ýÿ" ==> Shown(c) == "y"
    ensures c == 'Ý' ==> Shown(c) == "Y"
    ensures c == 'Ç' ==> Shown(c) == "C"
    ensures c == 'ç' ==> Shown(c) == "c"
    ensures c == 'Ñ' ==> Shown(c) == "N"
    ensures c == 'ñ' ==> Shown(c) == "n"
    ensures c == 'ß' ==> Shown(c) == "ss"
    ensures c == 'Æ' ==> Shown(c) == "AE"
    ensures c == 'æ' ==> Shown(c) == "ae"
    ensures c == 'Œ' ==> Shown(c) == "OE"
    ensures c == 'œ' ==> Shown(c) == "oe"
    ensures c == 'Þ' ==> Shown(c) == "Th"
    ensures c == 'þ' ==> Shown(c) == "th"
  {
    hide Shown, Transliterate;
    ShownBy(c);
    UpperFolded(c);
    LowerFolded(c);
    OthersFolded(c);
  }

  lemma ShownBy(c: char)
    ensures Shown(c) ==
            if Transliterate(c) != [c] then Transliterate(c)
            else if c == ' ' then "." else if c == '&' then "and" else if IsSafe(c) then [c] else ""
  {
    hide Shown, Transliterate;
    if Transliterate(c) == [c] {
      UnfoldedShown(c);
    } else {
      FoldedShown(c);
    }
  }

  lemma FoldedShown(c: char)
    requires Transliterate(c) != [c]
    ensures Shown(c) == Transliterate(c)
  {
    FoldedIsAscii(c);
    hide Transliterate;
    SubstituteNothing(Transliterate(c), AmpersandAndApostrophe);
    ShownWord(Transliterate(c));
  }

  lemma FoldedIsAscii(c: char)
    requires Transliterate(c) != [c]
    ensures forall x :: x in Transliterate(c) ==> IsAlnum(x) || x == '-'
  {
  }

  lemma UnfoldedShown(c: char)
    requires Transliterate(c) == [c]
    ensures Shown(c) == if c == ' ' then "." else if c == '&' then "and" else if IsSafe(c) then [c] else ""
  {
    hide Transliterate;
    assert Substitute([c], AmpersandAndApostrophe) == AmpersandAndApostrophe(c);
    if c == ' ' {
      assert KeepSafe(" ") == " ";
      assert Replace(" ", ' ', '.') == ".";
    } else if c == '&' {
      ShownWord("and");
    } else if IsSafe(c) {
      ShownWord([c]);
    }
  }

  lemma AsciiKept(c: char)
    ensures c < '\U{80}' && c != '`' ==> Transliterate(c) == [c]
  {
  }

  lemma DashesAndQuotesFolded(c: char)
    ensures c in "–—−" ==> Transliterate(c) == "-"
    ensures c in "`´‘’“”" ==> Transliterate(c) == ""
  {
  }

  lemma UpperFolded(c: char)
    ensures c in "ÀÁÂÃÄÅĀ" ==> Transliterate(c) == "A"
    ensures c in "ÈÉÊËĒ" ==> Transliterate(c) == "E"
    ensures c in "ÌÍÎÏĪ" ==> Transliterate(c) == "I"
    ensures c in "ÒÓÔÕÖØŌ" ==> Transliterate(c) == "O"
    ensures c in "ÙÚÛÜŪ" ==> Transliterate(c) == "U"
  {
  }

  lemma LowerFolded(c: char)
    ensures c in "àáâãäåā" ==> Transliterate(c) == "a"
    ensures c in "èéêëē" ==> Transliterate(c) == "e"
    ensures c in "ìíîïī" ==> Transliterate(c) == "i"
    ensures c in "òóôõöøō" ==> Transliterate(c) == "o"
    ensures c in "ùúûüū" ==> Transliterate(c) == "u"
  {
  }

  lemma OthersFolded(c: char)
    ensures c in "ýÿ" ==> Transliterate(c) == "y"
    ensures c == 'Ý' ==> Transliterate(c) == "Y"
    ensures c == 'Ç' ==> Transliterate(c) == "C"
    ensures c == 'ç' ==> Transliterate(c) == "c"
    ensures c == 'Ñ' ==> Transliterate(c) == "N"
    ensures c == 'ñ' ==> Transliterate(c) == "n"
    ensures c == 'ß' ==> Transliterate(c) == "ss"
    ensures c == 'Æ' ==> Transliterate(c) == "AE"
    ensures c == 'æ' ==> Transliterate(c) == "ae"
    ensures c == 'Œ' ==> Transliterate(c) == "OE"
    ensures c == 'œ' ==> Transliterate(c) == "oe"
    ensures c == 'Þ' ==> Transliterate(c) == "Th"
    ensures c == 'þ' ==> Transliterate(c) == "th"
  {
  }

  lemma UnlistedKept(c: char)
    ensures !HasAnalogue(c) ==> Transliterate(c) == [c] || Transliterate(c) == ""
  {
    if !HasAnalogue(c) {
      assert "ĀĒĪŌŪ"[0] != c && "ĀĒĪŌŪ"[1] != c && "ĀĒĪŌŪ"[2] != c && "ĀĒĪŌŪ"[3] != c && "ĀĒĪŌŪ"[4] != c;
      assert "āēīōū"[0] != c && "āēīōū"[1] != c && "āēīōū"[2] != c && "āēīōū"[3] != c && "āēīōū"[4] != c;
      assert "Œœ"[0] != c && "Œœ"[1] != c && "–—−"[0] != c && "–—−"[1] != c && "–—−"[2] != c;
    }
  }

  lemma ShownWord(s: string)
    requires forall c :: c in s ==> IsAlnum(c) || c == '-' || c == '.'
    ensures Replace(KeepSafe(s), ' ', '.') == s
  {
    KeepSafeKeepsAll(s);
    assert forall i :: 0 <= i < |s| ==> s[i] in s;
  }

  lemma {:induction false} SubstituteConcat(a: string, b: string, with: char -> string)
    ensures Substitute(a + b, with) == Substitute(a, with) + Substitute(b, with)
  {
    if a == "" {
      assert a + b == b;
    } else {
      assert (a + b)[0] == a[0] && (a + b)[1..] == a[1..] + b;
      SubstituteConcat(a[1..], b, with);
    }
  }

  lemma {:induction false} KeepSafeConcat(a: string, b: string)
    ensures KeepSafe(a + b) == KeepSafe(a) + KeepSafe(b)
  {
    if a == "" {
      assert a + b == b;
    } else {
      assert (a + b)[0] == a[0] && (a + b)[1..] == a[1..] + b;
      KeepSafeConcat(a[1..], b);
    }
  }

  lemma {:induction false} ShownThroughout(s: string)
    ensures Replace(KeepSafe(Substitute(Substitute(s, Transliterate), AmpersandAndApostrophe)), ' ', '.') == Substitute(s, Shown)
  {
    if s != "" {
      var first, rest := Transliterate(s[0]), Substitute(s[1..], Transliterate);
      SubstituteConcat(first, rest, AmpersandAndApostrophe);
      KeepSafeConcat(Substitute(first, AmpersandAndApostrophe), Substitute(rest, AmpersandAndApostrophe));
      ShownThroughout(s[1..]);
    }
  }

  /** The passes over the whole name come to one contribution per character, in order, without doubled or edge dots. */
  lemma SanitiseIsPerCharacter(s: string)
    ensures SanitiseForTitle(s) == Trim(CollapseDots(Substitute(TrimSpace(s), Shown)), IsDot)
  {
    ShownThroughout(TrimSpace(s));
  }

  // ---- words ----

  /** Letters and digits, at least one. */
  predicate IsTitleWord(w: string) {
    w != "" && forall c :: c in w ==> IsAlnum(c)
  }

  predicate TitleWords(ws: seq<string>) {
    forall w :: w in ws ==> IsTitleWord(w)
  }

  /** strings.Join. */
  function Join(ws: seq<string>, separator: string): string {
    if ws == [] then "" else if |ws| == 1 then ws[0] else ws[0] + separator + Join(ws[1..], separator)
  }

  lemma AlnumShown(w: string)
    requires forall c :: c in w ==> IsAlnum(c)
    ensures Substitute(w, Shown) == w
  {
    forall c | c in w
      ensures Shown(c) == [c]
    {
      ShownIs(c);
    }
    SubstituteNothing(w, Shown);
  }

  lemma {:induction false} WordsShown(ws: seq<string>)
    requires TitleWords(ws)
    ensures Substitute(Join(ws, " "), Shown) == Join(ws, ".")
  {
    hide Shown, Substitute;
    if ws != [] {
      assert ws[0] in ws;
      AlnumShown(ws[0]);
      if |ws| > 1 {
        WordsShown(ws[1..]);
        SubstituteConcat(ws[0] + " ", Join(ws[1..], " "), Shown);
        SubstituteConcat(ws[0], " ", Shown);
        SpaceShown();
      }
    } else {
      AlnumShown("");
    }
  }

  lemma SpaceShown()
    ensures Substitute(" ", Shown) == "."
  {
    ShownIs(' ');
    assert Substitute(" ", Shown) == Shown(' ') + Substitute("", Shown);
  }

  lemma {:induction false} WordsAreClean(ws: seq<string>)
    requires TitleWords(ws)
    ensures Clean(Join(ws, "."))
    ensures ws != [] ==> Join(ws, ".") != "" && IsAlnum(Join(ws, ".")[0])
  {
    if ws != [] {
      var w := ws[0];
      assert w in ws && w[0] in w && w[|w| - 1] in w;
      assert forall i :: 0 <= i < |w| ==> w[i] in w;
      if |ws| > 1 {
        WordsAreClean(ws[1..]);
      }
    }
  }

  lemma {:induction false} WordsHaveNoEdgeSpace(ws: seq<string>)
    requires TitleWords(ws) && ws != []
    ensures var s := Join(ws, " "); s != "" && IsAlnum(s[0]) && IsAlnum(s[|s| - 1])
  {
    var w := ws[0];
    assert w in ws && w[0] in w && w[|w| - 1] in w;
    if |ws| > 1 {
      WordsHaveNoEdgeSpace(ws[1..]);
    }
  }

  /** Words of letters and digits, a space between each, print as those words with a dot between each. */
  lemma WordsPrintDotted(ws: seq<string>)
    requires TitleWords(ws)
    ensures SanitiseForTitle(Join(ws, " ")) == Join(ws, ".")
  {
    hide Shown, Substitute, Clean, SanitiseForTitle;
    var s, d := Join(ws, " "), Join(ws, ".");
    if ws != [] {
      WordsHaveNoEdgeSpace(ws);
    }
    TrimNothing(s, IsSpace);
    SanitiseIsPerCharacter(s);
    WordsShown(ws);
    WordsAreClean(ws);
    CleanIsTrimmed(d);
  }

  lemma CleanIsTrimmed(d: string)
    requires Clean(d)
    ensures Trim(CollapseDots(d), IsDot) == d
  {
    CollapseNothing(d);
    TrimNothing(d, IsDot);
  }

  /** Between letters or digits, a character prints as what ShownIs says of it, whatever stands around. */
  lemma CharacterInPlace(a: string, c: char, b: string)
    requires IsTitleWord(a) && IsTitleWord(b)
    ensures SanitiseForTitle(a + [c] + b) == a + Shown(c) + b
  {
    hide Substitute, SanitiseForTitle;
    var s := a + [c] + b;
    assert a[0] in a && b[|b| - 1] in b;
    TrimNothing(s, IsSpace);
    SanitiseIsPerCharacter(s);
    SubstituteConcat(a + [c], b, Shown);
    SubstituteConcat(a, [c], Shown);
    AlnumShown(a);
    AlnumShown(b);
    OneSubstituted(c);
    ShownIsClean(c);
    hide Shown;
    InPlaceIsClean(a, Shown(c), b);
    CleanIsTrimmed(a + Shown(c) + b);
  }

  lemma OneSubstituted(c: char)
    ensures Substitute([c], Shown) == Shown(c)
  {
    assert Substitute([c], Shown) == Shown(c) + Substitute("", Shown);
  }

  lemma ShownIsClean(c: char)
    ensures forall x :: x in Shown(c) ==> IsAlnum(x) || x == '.' || x == '-'
    ensures '.' in Shown(c) ==> Shown(c) == "."
  {
    hide Shown, Transliterate;
    ShownBy(c);
    if Transliterate(c) != [c] {
      FoldedIsAscii(c);
    }
  }

  lemma InPlaceIsClean(a: string, x: string, b: string)
    requires IsTitleWord(a) && IsTitleWord(b)
    requires forall c :: c in x ==> IsAlnum(c) || c == '.' || c == '-'
    requires '.' in x ==> x == "."
    ensures Clean(a + x + b)
  {
    var s := a + x + b;
    assert forall i :: 0 <= i < |a| ==> a[i] in a;
    assert forall i :: 0 <= i < |x| ==> x[i] in x;
    assert forall i :: 0 <= i < |b| ==> b[i] in b;
    assert forall i :: 0 <= i < |s| && s[i] == '.' ==> i == |a| && x == ".";
  }
}
