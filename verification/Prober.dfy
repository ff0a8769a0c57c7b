/**
 One probe of a programme's qualities and the cache it feeds:
 internal/bbc/prober.go. The BBC's answers are inputs.
 */
module Prober {
  import opened Streams
  import opened Heights

  datatype Playlist = NotYetPublished | PlaylistError | NoVersion | Resolved(accessibilityOnly: bool)

  datatype MediaSelector = SelectorError | Video(streams: seq<VideoStream>)

  datatype MasterAnswer<+T> = MasterError | Answered(value: T)

  /** VerifyFHD's answer: a real 1080p rendition, and the tallest height the master lists. */
  datatype Verified = Verified(has1080: bool, maxListed: int)

  /** What the BBC says about one programme while it is probed; patience is how many masters may fail before the deadline has passed. */
  datatype Answer = Answer(
    playlist: Playlist,
    selector: MediaSelector,
    verify: string -> MasterAnswer<Verified>,
    hidden: string -> MasterAnswer<bool>,
    patience: nat)

  datatype Outcome = NotYet | NoAnswer | Found(heights: seq<int>, cacheable: bool)

  // ---- failover between suppliers ----

  /** The first answer that is not an error, among the masters asked before the deadline. */
  function FirstAnswer<T>(masters: seq<string>, ask: string -> MasterAnswer<T>, patience: nat): MasterAnswer<T> {
    if masters == [] then MasterError
    else if ask(masters[0]).Answered? then ask(masters[0])
    else if patience == 0 then MasterError
    else FirstAnswer(masters[1..], ask, patience - 1)
  }

  /** Master i answers v, in time, after every master before it has failed. */
  predicate AnswersAfterFailures<T(==)>(masters: seq<string>, ask: string -> MasterAnswer<T>, patience: nat, i: nat, v: T) {
    && i < |masters| && i <= patience && ask(masters[i]) == Answered(v)
    && forall j :: 0 <= j < i ==> ask(masters[j]).MasterError?
  }

  /** The failover answers v exactly when some master in time does and all before it failed. */
  lemma {:induction false} FirstAnswerMeans<T>(masters: seq<string>, ask: string -> MasterAnswer<T>, patience: nat, v: T)
    ensures FirstAnswer(masters, ask, patience) == Answered(v)
            <==> exists i: nat :: AnswersAfterFailures(masters, ask, patience, i, v)
  {
    if masters != [] {
      if ask(masters[0]).Answered? {
        assert AnswersAfterFailures(masters, ask, patience, 0, ask(masters[0]).value);
      } else if patience > 0 {
        FirstAnswerMeans(masters[1..], ask, patience - 1, v);
        LaterAnswer(masters, masters[1..], ask, patience, patience - 1, v);
      }
    }
  }

  lemma LaterAnswer<T>(masters: seq<string>, rest: seq<string>, ask: string -> MasterAnswer<T>, patience: nat,
                       left: nat, v: T)
    requires masters != [] && rest == masters[1..] && ask(masters[0]).MasterError? && patience == left + 1
    ensures (exists i: nat :: AnswersAfterFailures(masters, ask, patience, i, v))
            <==> (exists i: nat :: AnswersAfterFailures(rest, ask, left, i, v))
  {
    if i: nat :| AnswersAfterFailures(rest, ask, left, i, v) {
      assert AnswersAfterFailures(masters, ask, patience, i + 1, v);
    }
    if i: nat :| AnswersAfterFailures(masters, ask, patience, i, v) {
      assert AnswersAfterFailures(rest, ask, left, i - 1, v);
    }
  }

  method AskMasters<T>(masters: seq<string>, ask: string -> MasterAnswer<T>, patience: nat) returns (r: MasterAnswer<T>)
    ensures r == FirstAnswer(masters, ask, patience)
  {
    for i := 0 to |masters|
      invariant i <= patience
      invariant FirstAnswer(masters, ask, patience) == FirstAnswer(masters[i..], ask, patience - i)
    {
      r := ask(masters[i]);
      if r.Answered? {
        return;
      }
      if i == patience {
        return MasterError;
      }
      assert masters[i..][1..] == masters[i + 1..];
    }
    return MasterError;
  }

  // ---- one probe ----

  /** The one descending list of a set of heights. */
  ghost function Listed(s: set<int>): (h: seq<int>)
    ensures Descending(h) && Members(h) == s
  {
    if !exists x :: x in s then
      assert s == {};
      []
    else
      var x :| x in s;
      var rest := Listed(s - {x});
      assert x in rest ==> x in Members(rest);
      InsertKeepsDescending(rest, x);
      assert Members(InsertDescending(rest, x)) == Members(rest) + {x};
      InsertDescending(rest, x)
  }

  ghost function Reported(streams: seq<VideoStream>): set<int> {
    set s | s in streams && s.height > 0 :: s.height
  }

  predicate ChecksFHD(heights: seq<int>, urls: seq<string>) {
    urls != [] && heights != [] && heights[0] >= 720
  }

  /** The heights a reported 1080 leaves once verified. */
  ghost function AfterVerify(reported: set<int>, v: Verified): set<int> {
    if !v.has1080 && v.maxListed > 0 then reported - {1080} + {v.maxListed}
    else if v.has1080 && 0 < v.maxListed < 1080 then reported + {v.maxListed}
    else reported
  }

  /** The heights of a served programme and whether the FHD check could not be answered. */
  ghost function Checked(streams: seq<VideoStream>, a: Answer): (seq<int>, bool) {
    var urls := BestURLs(streams, streams);
    var reported := Reported(streams);
    var heights := Listed(reported);
    if !ChecksFHD(heights, urls) then (heights, false)
    else if 1080 in reported then
      match FirstAnswer(urls, a.verify, a.patience)
      case MasterError => (heights, true)
      case Answered(v) => (Listed(AfterVerify(reported, v)), false)
    else
      match FirstAnswer(urls, a.hidden, a.patience)
      case MasterError => (heights, true)
      case Answered(found) => (if found then [1080] + heights else heights, false)
  }

  /** What a probe amounts to. */
  ghost function OutcomeOf(a: Answer): Outcome {
    match a.playlist
    case NotYetPublished => NotYet
    case PlaylistError => NoAnswer
    case NoVersion => NoAnswer
    case Resolved(accessibilityOnly) =>
      match a.selector
      case SelectorError => NoAnswer
      case Video(streams) =>
        var (heights, transient) := Checked(streams, a);
        Found(heights, !transient && !accessibilityOnly && !LiveSuppliersOnly(streams))
  }

  /** The probe proper: playlist, media selector, FHD check. */
  method Probe(a: Answer) returns (outcome: Outcome)
    ensures outcome == OutcomeOf(a)
  {
    hide Checked;
    if a.playlist == NotYetPublished {
      return NotYet;
    }
    if !a.playlist.Resolved? || a.selector.SelectorError? {
      return NoAnswer;
    }
    var streams := a.selector.streams;
    var heights, transient := CheckFHD(streams, a);
    return Found(heights, !transient && !a.playlist.accessibilityOnly && !LiveSuppliersOnly(streams));
  }

  method CheckFHD(streams: seq<VideoStream>, a: Answer) returns (heights: seq<int>, transient: bool)
    ensures (heights, transient) == Checked(streams, a)
  {
    hide FirstAnswer, Listed, BestURLs;
    var urls := BestHLSURLs(streams);
    heights := DedupedSortedHeights(streams);
    transient := false;
    ghost var reported := Reported(streams);
    DescendingIsUnique(heights, Listed(reported));
    assert 1080 in heights <==> 1080 in Members(heights);
    if ChecksFHD(heights, urls) {
      if 1080 in heights {
        var v := AskMasters(urls, a.verify, a.patience);
        if v.MasterError? {
          transient := true;
        } else {
          if !v.value.has1080 && v.value.maxListed > 0 {
            heights := ReplaceHeight(heights, 1080, v.value.maxListed);
          } else if v.value.has1080 && v.value.maxListed > 0 && v.value.maxListed < 1080 {
            heights := InsertHeight(heights, v.value.maxListed);
          }
          DescendingIsUnique(heights, Listed(AfterVerify(reported, v.value)));
        }
      } else {
        var found := AskMasters(urls, a.hidden, a.patience);
        if found.MasterError? {
          transient := true;
        } else if found.value {
          heights := [1080] + heights;
        }
      }
    }
  }

  // ---- what a cacheable answer is worth ----

  /** The FHD check applies to a served programme. */
  ghost predicate IsChecked(a: Answer) {
    a.selector.Video? && ChecksFHD(Listed(Reported(a.selector.streams)), BestURLs(a.selector.streams, a.selector.streams))
  }

  ghost function VerifyAnswer(a: Answer): MasterAnswer<Verified>
    requires a.selector.Video?
  {
    FirstAnswer(BestURLs(a.selector.streams, a.selector.streams), a.verify, a.patience)
  }

  ghost function HiddenAnswer(a: Answer): MasterAnswer<bool>
    requires a.selector.Video?
  {
    FirstAnswer(BestURLs(a.selector.streams, a.selector.streams), a.hidden, a.patience)
  }

  /** Nothing passing is cacheable: a failed FHD check, an accessibility-only version, or live-channel suppliers alone. */
  lemma CacheableIsSettled(a: Answer)
    requires OutcomeOf(a).Found?
    ensures OutcomeOf(a).cacheable <==>
              && a.playlist == Resolved(false) && a.selector.Video? && !LiveSuppliersOnly(a.selector.streams)
              && (IsChecked(a) ==>
                    if 1080 in Reported(a.selector.streams) then VerifyAnswer(a).Answered? else HiddenAnswer(a).Answered?)
  {
    hide FirstAnswer, Listed, BestURLs, LiveSuppliersOnly;
  }

  /**
   A reported 1080 that could be checked is cached exactly when the check
   confirms it, lists 1080 itself, or lists no height at all.
   */
  lemma Cached1080(a: Answer)
    requires OutcomeOf(a).Found? && OutcomeOf(a).cacheable
    requires IsChecked(a) && 1080 in Reported(a.selector.streams)
    ensures VerifyAnswer(a).Answered?
    ensures var v := VerifyAnswer(a).value;
            1080 in OutcomeOf(a).heights <==> v.has1080 || v.maxListed <= 0 || v.maxListed == 1080
  {
    hide FirstAnswer, Listed, BestURLs, LiveSuppliersOnly;
    var v := VerifyAnswer(a).value;
    var after := Listed(AfterVerify(Reported(a.selector.streams), v));
    assert 1080 in after <==> 1080 in Members(after);
  }

  /** The advertised heights are in the feed's order, except where a hidden 1080 was put before a taller height. */
  lemma OutcomeOrder(a: Answer)
    requires OutcomeOf(a).Found?
    ensures Descending(OutcomeOf(a).heights) <==>
              !(IsChecked(a) && 1080 !in Reported(a.selector.streams) && HiddenAnswer(a) == Answered(true)
                && exists h :: h in Reported(a.selector.streams) && h > 1080)
  {
    hide FirstAnswer, Listed, BestURLs, LiveSuppliersOnly;
    var reported := Reported(a.selector.streams);
    PrependedOrder(Listed(reported));
    assert forall h :: h in Listed(reported) <==> h in Members(Listed(reported));
  }

  // ---- when the full-HD check is made, and what it leaves ----

  /** With nothing listed at 720 or above, or no HLS stream with a bitrate, the FHD check is not made: the heights are the listed ones, whatever it would answer. */
  lemma SmallProgrammesAreNotChecked(a: Answer)
    requires a.playlist.Resolved? && a.selector.Video?
    requires (forall s :: s in a.selector.streams ==> s.height < 720)
             || (forall s :: s in a.selector.streams ==> s.format != "hls" || s.bitrate <= 0)
    ensures OutcomeOf(a).Found? && Descending(OutcomeOf(a).heights)
    ensures forall h :: h in OutcomeOf(a).heights <==> h > 0 && exists s :: s in a.selector.streams && s.height == h
    ensures OutcomeOf(a).cacheable <==> !a.playlist.accessibilityOnly && !LiveSuppliersOnly(a.selector.streams)
  {
    hide FirstAnswer, BestURLs, LiveSuppliersOnly, Listed;
    var streams := a.selector.streams;
    var heights := Listed(Reported(streams));
    ReportedHeights(streams, heights);
    if forall s :: s in streams ==> s.height < 720 {
      assert heights != [] ==> heights[0] in heights;
    } else {
      MasterBehindURL(streams);
    }
  }

  lemma ReportedHeights(streams: seq<VideoStream>, heights: seq<int>)
    requires Members(heights) == Reported(streams)
    ensures forall h :: h in heights <==> h > 0 && exists s :: s in streams && s.height == h
  {
    forall h
      ensures h in heights <==> h > 0 && exists s :: s in streams && s.height == h
    {
      assert h in heights <==> h in Members(heights);
    }
  }

  lemma MasterBehindURL(streams: seq<VideoStream>)
    ensures BestURLs(streams, streams) != [] ==> exists s :: s in streams && s.format == "hls" && s.bitrate > 0
  {
    var urls := BestURLs(streams, streams);
    if urls != [] {
      assert urls[0] in urls;
    }
  }

  /** With one listed at 720 or above and an HLS stream with a bitrate, it is made. */
  lemma LargeProgrammesAreChecked(a: Answer, tall: VideoStream, hls: VideoStream)
    requires a.selector.Video? && tall in a.selector.streams && tall.height >= 720
    requires hls in a.selector.streams && hls.format == "hls" && hls.bitrate > 0
    ensures IsChecked(a)
  {
    hide Listed, BestURLs;
    var streams := a.selector.streams;
    var heights := Listed(Reported(streams));
    ReportedHeights(streams, heights);
    assert tall.height in heights;
    var best := BestOf(streams, hls);
    assert best.url in BestURLs(streams, streams);
  }

  lemma BestOf(streams: seq<VideoStream>, hls: VideoStream) returns (best: VideoStream)
    requires hls in streams && IsHLS(hls) && hls.bitrate > 0
    ensures BestMaster(streams, best)
  {
    best := Largest(streams, |streams|, hls);
    assert forall t :: t in streams ==> exists i :: 0 <= i < |streams| && streams[i] == t;
  }

  lemma {:induction false} Largest(streams: seq<VideoStream>, n: nat, hls: VideoStream) returns (best: VideoStream)
    requires n <= |streams| && hls in streams && IsHLS(hls)
    ensures best in streams && IsHLS(best) && best.bitrate >= hls.bitrate
    ensures forall i :: 0 <= i < n && IsHLS(streams[i]) ==> streams[i].bitrate <= best.bitrate
  {
    best := hls;
    if n > 0 {
      best := Largest(streams, n - 1, hls);
      if IsHLS(streams[n - 1]) && streams[n - 1].bitrate > best.bitrate {
        best := streams[n - 1];
      }
    }
  }

  /**
   What an answered check of a reported 1080 advertises: every other listed
   height, the master's own top height if it is below 1080 or there is no 1080,
   and 1080 exactly when the master has it, lists it or lists nothing.
   */
  lemma VerifiedHeights(a: Answer, h: int)
    requires OutcomeOf(a).Found? && IsChecked(a) && 1080 in Reported(a.selector.streams) && VerifyAnswer(a).Answered?
    ensures var v := VerifyAnswer(a).value;
            h in OutcomeOf(a).heights <==>
              if h == 1080 then v.has1080 || v.maxListed <= 0 || v.maxListed == 1080
              else h in Reported(a.selector.streams) || (h == v.maxListed && h > 0 && (!v.has1080 || h < 1080))
  {
    hide FirstAnswer, Listed, BestURLs, LiveSuppliersOnly;
    var after := Listed(AfterVerify(Reported(a.selector.streams), VerifyAnswer(a).value));
    assert h in after <==> h in Members(after);
  }

  /** And an answered search for a hidden one: every listed height, and 1080 exactly when it was found. */
  lemma HiddenHeights(a: Answer, h: int)
    requires OutcomeOf(a).Found? && IsChecked(a) && 1080 !in Reported(a.selector.streams) && HiddenAnswer(a).Answered?
    ensures h in OutcomeOf(a).heights <==> h in Reported(a.selector.streams) || (h == 1080 && HiddenAnswer(a).value)
  {
    hide FirstAnswer, Listed, BestURLs, LiveSuppliersOnly;
    var heights := Listed(Reported(a.selector.streams));
    assert h in heights <==> h in Members(heights);
  }
}
