/**
 Reading an episode identity back from a release title:
 internal/newznab/parse.go.
 */
module Parse {
  import opened Text

  datatype EpisodeIdentity = EpisodeIdentity(showName: string, season: nat, episode: nat, airDate: string)

  const NO_IDENTITY := EpisodeIdentity("", 0, 0, "")

  predicate NumberedAs(id: EpisodeIdentity, season: int, episode: int) {
    id.season == season && id.episode == episode
  }

  /** ParseTitle returned no season and episode. */
  predicate Unnumbered(id: EpisodeIdentity) {
    NumberedAs(id, 0, 0)
  }

  /** How many digits stand from position i on. */
  function Digits(t: string, i: nat): nat
    requires i <= |t|
  {
    RunLength(t, i, IsDigit)
  }

  /**
   The text starts with an SxxExx marker. After the S the E must follow one
   or two digits, and the one to four digits after the E must end at a
   non-digit, so both runs of digits are maximal ones.
   */
  predicate StartsWithMarker(s: string) {
    && s != []
    && LowerChar(s[0]) == 's'
    && 1 <= Digits(s, 1) <= 2
    && var j := 1 + Digits(s, 1);
    && j < |s|
    && LowerChar(s[j]) == 'e'
    && 1 <= Digits(s, j + 1) <= 4
  }

  function SeasonOf(s: string): nat
    requires StartsWithMarker(s)
  {
    Value(s[1..1 + Digits(s, 1)])
  }

  function EpisodeOf(s: string): nat
    requires StartsWithMarker(s)
  {
    var j := 2 + Digits(s, 1);
    Value(s[j..j + Digits(s, j)])
  }

  /** reTitleSxxExx matches with the S at position i: its boundary group is the start or a character that is neither letter nor digit. */
  predicate MarkerAt(t: string, i: nat) {
    i < |t| && (i == 0 || !IsAlnum(t[i - 1])) && StartsWithMarker(t[i..])
  }

  predicate DigitsAt(t: string, i: nat, n: nat) {
    i + n <= |t| && forall k :: i <= k < i + n ==> IsDigit(t[k])
  }

  predicate DateSeparator(c: char) {
    c == '.' || c == '-'
  }

  /** A YYYY.MM.DD date whose year stands at position i: reTitleAirDate with its boundary groups. */
  predicate DateAt(t: string, i: nat) {
    && i + 10 <= |t|
    && (i == 0 || !IsDigit(t[i - 1]))
    && DigitsAt(t, i, 4) && DateSeparator(t[i + 4])
    && DigitsAt(t, i + 5, 2) && DateSeparator(t[i + 7])
    && DigitsAt(t, i + 8, 2)
    && (i + 10 == |t| || !IsDigit(t[i + 10]))
  }

  /** The leftmost position from i on that satisfies at, or None. */
  function First(t: string, i: nat, at: (string, nat) -> bool): (r: Option<nat>)
    requires i <= |t|
    ensures r.Some? ==> i <= r.value < |t| && at(t, r.value) && forall k :: i <= k < r.value ==> !at(t, k)
    ensures r.None? ==> forall k :: i <= k < |t| ==> !at(t, k)
    decreases |t| - i
  {
    if i == |t| then None else if at(t, i) then Some(i) else First(t, i + 1, at)
  }

  function FirstMarker(t: string): Option<nat> {
    First(t, 0, MarkerAt)
  }

  function FirstDate(t: string): Option<nat> {
    First(t, 0, DateAt)
  }

  predicate HasMarker(t: string) {
    FirstMarker(t).Some?
  }

  predicate HasDate(t: string) {
    FirstDate(t).Some?
  }

  predicate NotSpace(c: char) {
    !IsSpace(c)
  }

  /** strings.Join(strings.Fields(s), " "). */
  function JoinFields(s: string): (t: string)
    ensures |t| <= |s|
    decreases |s|
  {
    if s == [] then []
    else if IsSpace(s[0]) then JoinFields(s[1..])
    else
      var w := RunLength(s, 0, NotSpace);
      var rest := JoinFields(s[w..]);
      if rest == [] then s[..w] else s[..w] + " " + rest
  }

  function ShowNameFromPrefix(prefix: string): string {
    JoinFields(Replace(prefix, '.', ' '))
  }

  /** The date ParseTitle takes from a title whose leftmost date pattern is at i. */
  function DateIdentity(t: string, i: nat): EpisodeIdentity
    requires DateAt(t, i)
  {
    var year, month, day := Value(t[i..i + 4]), Value(t[i + 5..i + 7]), Value(t[i + 8..i + 10]);
    if 1900 <= year <= 2199 && 1 <= month <= 12 && 1 <= day <= 31 then
      EpisodeIdentity(ShowNameFromPrefix(t[..i]), 0, 0,
                      t[i..i + 4] + "-" + t[i + 5..i + 7] + "-" + t[i + 8..i + 10])
    else
      NO_IDENTITY
  }

  function ParseTitle(title: string): EpisodeIdentity {
    var t := TrimSuffix(TrimSpace(title), ".nzb");
    match FirstMarker(t)
    case Some(i) => EpisodeIdentity(ShowNameFromPrefix(t[..i]), SeasonOf(t[i..]), EpisodeOf(t[i..]), "")
    case None =>
      match FirstDate(t)
      case Some(i) => DateIdentity(t, i)
      case None => NO_IDENTITY
  }

  // ---- how markers behave under concatenation ----

  lemma DigitsLeft(a: string, b: string, i: nat)
    requires i <= |a|
    ensures Digits(a + "." + b, i) == Digits(a, i)
  {
    RunLengthIs(a + "." + b, i, IsDigit, Digits(a, i));
  }

  lemma StartsWithMarkerDotted(a: string, b: string)
    requires a != []
    ensures StartsWithMarker(a + "." + b) <==> StartsWithMarker(a)
    ensures StartsWithMarker(a) ==> SeasonOf(a + "." + b) == SeasonOf(a) && EpisodeOf(a + "." + b) == EpisodeOf(a)
  {
    var t := a + "." + b;
    DigitsLeft(a, b, 1);
    var j := 1 + Digits(a, 1);
    assert t[1..j] == a[1..j];
    if j < |a| {
      DigitsLeft(a, b, j + 1);
      assert t[j + 1..j + 1 + Digits(a, j + 1)] == a[j + 1..j + 1 + Digits(a, j + 1)];
    }
  }

  lemma MarkerOfDottedAt(a: string, b: string, k: nat)
    requires k <= |a| + |b|
    ensures k < |a| ==> (MarkerAt(a + "." + b, k) <==> MarkerAt(a, k))
    ensures k == |a| ==> !MarkerAt(a + "." + b, k)
    ensures k > |a| ==> (MarkerAt(a + "." + b, k) <==> MarkerAt(b, k - |a| - 1))
  {
    var t := a + "." + b;
    if k < |a| {
      assert t[k..] == a[k..] + "." + b;
      StartsWithMarkerDotted(a[k..], b);
    } else if k > |a| {
      assert t[k..] == b[k - |a| - 1..];
    }
  }

  lemma FirstIs(t: string, at: (string, nat) -> bool, i: nat)
    requires i < |t| && at(t, i) && forall k :: 0 <= k < i ==> !at(t, k)
    ensures First(t, 0, at) == Some(i)
  {
    var r := First(t, 0, at);
    assert r.Some?;
  }

  lemma MarkersOfDotted(a: string, b: string, t: string)
    requires t == a + "." + b
    ensures forall k: nat :: k < |a| ==> (MarkerAt(t, k) <==> MarkerAt(a, k))
    ensures !MarkerAt(t, |a|)
    ensures forall k: nat :: |a| < k < |t| ==> (MarkerAt(t, k) <==> MarkerAt(b, k - |a| - 1))
  {
    forall k: nat | k < |a|
      ensures MarkerAt(t, k) <==> MarkerAt(a, k)
    {
      MarkerOfDottedAt(a, b, k);
    }
    MarkerOfDottedAt(a, b, |a|);
    forall k: nat | |a| < k < |t|
      ensures MarkerAt(t, k) <==> MarkerAt(b, k - |a| - 1)
    {
      MarkerOfDottedAt(a, b, k);
    }
  }

  /** A dot separates: the leftmost marker of a dotted pair is the left part's, else the right part's. */
  lemma FirstMarkerOfDotted(a: string, b: string)
    ensures FirstMarker(a + "." + b) ==
            if HasMarker(a) then FirstMarker(a)
            else if HasMarker(b) then Some(|a| + 1 + FirstMarker(b).value)
            else None
  {
    hide MarkerAt;
    MarkersOfDotted(a, b, a + "." + b);
    FirstOfSplit(a + "." + b, a, b, MarkerAt);
  }

  lemma FirstOfSplit(t: string, a: string, b: string, at: (string, nat) -> bool)
    requires |t| == |a| + 1 + |b|
    requires forall k: nat :: k < |a| ==> (at(t, k) <==> at(a, k))
    requires !at(t, |a|)
    requires forall k: nat :: |a| < k < |t| ==> (at(t, k) <==> at(b, k - |a| - 1))
    ensures First(t, 0, at) ==
            if First(a, 0, at).Some? then First(a, 0, at)
            else if First(b, 0, at).Some? then Some(|a| + 1 + First(b, 0, at).value)
            else None
  {
    if First(a, 0, at).Some? {
      FirstIs(t, at, First(a, 0, at).value);
    } else if First(b, 0, at).Some? {
      var i := |a| + 1 + First(b, 0, at).value;
      assert at(b, i - |a| - 1);
      FirstIs(t, at, i);
    }
  }
}
