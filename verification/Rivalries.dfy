/**
 Who wins a contested number, case by case: internal/newznab/tvdb.go, resolve.
 */
module Rivalries {
  import opened Text
  import opened Titles
  import opened TVDB
  import opened Matching
  import opened Labels
  import opened Arbitration
  import opened Doubts

  /** Another version gives way to the version it is of, when both claim the number. */
  lemma VersionGivesWay(c: Contest, p: Programme, q: Programme, n: Number)
    requires Claims(c, p, n) && Claims(c, q, n)
    requires p.episode == q.episode + " - Signed" || p.episode == q.episode + " (Animated)"
             || p.episode == q.episode + " (Reconstruction)"
    ensures !Prevails(c, p, n)
  {
    hide Claimed, Survives;
    VersionBaseMeans(q.episode);
    assert p.episode != q.episode;
    assert VersionOfAnother(p, Claimants(c, n));
  }

  /** A subtitle without one of the marks is no version of another. */
  predicate IsOriginal(p: Programme) {
    !HasSuffix(p.episode, " - Signed") && !HasSuffix(p.episode, " (Animated)") && !HasSuffix(p.episode, " (Reconstruction)")
  }

  lemma OriginalStays(c: Contest, p: Programme, n: Number)
    requires Claims(c, p, n) && IsOriginal(p)
    ensures p in Originals(Claimants(c, n))
  {
    hide Claimed;
    VersionBaseMeans(p.episode);
  }

  /** An original whose full title matched keeps the number, whoever else claims it. */
  lemma FullTitlePrevails(c: Contest, p: Programme, n: Number)
    requires Claims(c, p, n) && IsOriginal(p) && StrengthOf(c, p) == ON_TITLE
    ensures Prevails(c, p, n)
  {
    hide Claimed, OnePID, Owners;
    OriginalStays(c, p, n);
  }

  /**
   When originals claim a number only by titles matched outside the window, and
   those that go out with it anyway are one programme, that one keeps it and no
   other does.
   */
  lemma OwnerPrevails(c: Contest, p: Programme, n: Number)
    requires p in Originals(Claimants(c, n)) && OffWindowOnly(c, Originals(Claimants(c, n)))
    requires GivenNumber(p) == Some(n)
    requires forall q :: q in Originals(Claimants(c, n)) && GivenNumber(q) == Some(n) ==> q.pid == p.pid
    ensures Prevails(c, p, n)
    ensures forall q :: Prevails(c, q, n) ==> q.pid == p.pid
  {
    hide Claimed, GivenNumber, Considered;
    var owners := Owners(Originals(Claimants(c, n)), n);
    assert p in owners;
    assert Rivals(c, n) == owners;
  }

  /** A weaker claim gives way to another programme's stronger one. */
  lemma WeakerGivesWay(c: Contest, p: Programme, q: Programme, n: Number)
    requires p.pid != q.pid && q in Originals(Claimants(c, n))
    requires StrengthOf(c, p) < StrengthOf(c, q) && StrengthOf(c, p) < ON_TITLE
    ensures !Prevails(c, p, n)
  {
    hide Claimed, Considered, VersionOfAnother;
    assert !OffWindowOnly(c, Originals(Claimants(c, n)));
    assert q in Rivals(c, n);
    if p in Rivals(c, n) {
      assert !OnePID(Rivals(c, n));
    }
  }

  /** Two programmes claiming equally below a full title, by different subtitles, neither being the one owner, lose it both. */
  lemma TiedSubtitlesLose(c: Contest, p: Programme, q: Programme, n: Number)
    requires p in Rivals(c, n) && q in Rivals(c, n) && p.pid != q.pid && p.episode != q.episode
    requires StrengthOf(c, p) == StrengthOf(c, q) < ON_TITLE
    ensures !Prevails(c, p, n) && !Prevails(c, q, n)
  {
    hide Claimed, Rivals;
    assert !OnePID(Rivals(c, n));
  }

  /** The strongest claim, made by one subtitle, keeps the number. */
  lemma StrongestSubtitlePrevails(c: Contest, p: Programme, n: Number)
    requires p in Originals(Claimants(c, n)) && StrengthOf(c, p) > OFF_WINDOW
    requires forall q :: q in Originals(Claimants(c, n)) ==>
               StrengthOf(c, q) < StrengthOf(c, p) || (StrengthOf(c, q) == StrengthOf(c, p) && q.episode == p.episode)
    ensures Prevails(c, p, n)
  {
    hide Claimed, Considered, VersionOfAnother;
    assert !OffWindowOnly(c, Originals(Claimants(c, n)));
    assert Rivals(c, n) == Originals(Claimants(c, n));
  }

  // ---- the show ----

  /** One number matched within the window is enough for every programme that prevails to keep its own. */
  lemma WindowMatchBearsOut(c: Contest, p: Programme, q: Programme)
    requires PrevailsSomewhere(c, q) && StrengthOf(c, q) > OFF_WINDOW
    ensures Wins(c, p) <==> PrevailsSomewhere(c, p)
  {
    hide Claimed, Rivals, Survives, AtOwnNumber;
    assert BearsOut(c, q);
  }

  /** So is one considered programme, with no other number won, whose printed number the list's episode there bears out. */
  lemma OwnNumberBearsOut(c: Contest, eps: seq<TVDBEpisode>, p: Programme, q: Programme, i: nat)
    requires Indexes(c.idx, eps) && Considered(c, q) && !PrevailsSomewhere(c, q)
    requires OwnIdentity(q).Numbered? && LastAt(eps, i, (OwnIdentity(q).season, OwnIdentity(q).number))
    requires SameTitle(c.idx.lexicon, eps[i], q.episode) || AiredWithin(eps[i], q.airDate, 7)
    ensures Wins(c, p) <==> PrevailsSomewhere(c, p)
  {
    hide PrevailsSomewhere, Considered, Indexes, LastAt, SameTitle, AiredWithin, IdentityOf, BornOut, GivenNumber;
    var n := (OwnIdentity(q).season, OwnIdentity(q).number);
    GivenNumberIsPrinted(q.(tvdbNumbered := false));
    GivenIgnoresTVDB(q);
    BornOutMeans(c.idx, eps, q, n);
    assert AtOwnNumber(c, q);
    assert BearsOut(c, q);
  }

  // ---- labels ----

  /** Three programmes of a label at their own numbers, and no more that are not, spare every programme whose series alone was assumed under it. */
  lemma ThreeSpareTheirLabel(c: Contest, p: Programme, x: Programme, y: Programme, z: Programme)
    requires p.seriesAssumed && !p.episodeAssumed && !StoryPart(p.episode) && SeriesLabel(p.episode) != ""
    requires forall q :: q in {x, y, z} ==> CheckableUnder(c, q, SeriesLabel(p.episode)) && AtOwnNumber(c, q)
    requires x.pid != y.pid && y.pid != z.pid && x.pid != z.pid
    requires |CheckablePIDs(c, SeriesLabel(p.episode)) - BornePIDs(c, SeriesLabel(p.episode))|
             <= |BornePIDs(c, SeriesLabel(p.episode))|
    ensures !IsContradicted(c, p)
  {
    hide CheckableUnder, AtOwnNumber, Considered, Contradicts, Wins, SeriesLabel, StoryPart, CheckablePIDs, BornePIDs;
    var name := SeriesLabel(p.episode);
    var borne, checkable := BornePIDs(c, name), CheckablePIDs(c, name);
    PIDOfBorne(c, name, x);
    PIDOfBorne(c, name, y);
    PIDOfBorne(c, name, z);
    SubsetSize({x.pid, y.pid, z.pid}, borne);
    BorneAreCheckable(c, name);
    assert checkable == borne + (checkable - borne);
  }

  lemma PIDOfBorne(c: Contest, name: string, x: Programme)
    requires CheckableUnder(c, x, name) && AtOwnNumber(c, x)
    ensures x.pid in BornePIDs(c, name)
  {
    hide AtOwnNumber, SeriesLabel;
  }

  lemma BorneAreCheckable(c: Contest, name: string)
    ensures BornePIDs(c, name) <= CheckablePIDs(c, name)
  {
    hide AtOwnNumber, CheckableUnder;
  }

  /** Two do not, nor does a label of whose programmes more fail than stand. */
  lemma TwoDoNotSpare(c: Contest, p: Programme)
    requires |BornePIDs(c, SeriesLabel(p.episode))| <= 2
             || |CheckablePIDs(c, SeriesLabel(p.episode)) - BornePIDs(c, SeriesLabel(p.episode))|
                > |BornePIDs(c, SeriesLabel(p.episode))|
    ensures !LabelBorneOut(c, p)
  {
    hide SeriesLabel, StoryPart, CheckablePIDs, BornePIDs;
    var borne, checkable := BornePIDs(c, SeriesLabel(p.episode)), CheckablePIDs(c, SeriesLabel(p.episode));
    BorneAreCheckable(c, SeriesLabel(p.episode));
    assert checkable == borne + (checkable - borne);
  }
}
