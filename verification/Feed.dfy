/**
 What becomes of one item of the RSS feed: internal/newznab/tvdb.go,
 numberBrowseFromTVDB, in terms of the item and the lists.
 */
module Feed {
  import opened Text
  import opened Sanitise
  import opened Titles
  import opened TVDB
  import opened Matching
  import opened Arbitration
  import opened Doubts
  import opened Browse

  /** An item is held back exactly when its printed number is a guess and some series its name fits has no list. */
  lemma HeldBackMeans(b: Poll, p: Programme)
    ensures IsUnchecked(b, p) <==>
              Guessed(p) && exists m :: m in b.mappings && b.nameKey(p.name) == b.nameKey(m.showName) && m.tvdbId !in b.indexes
  {
    hide PositionGuess, OwnIdentity, IsSpecial;
    GuessedMeans(p);
    if m :| m in b.mappings && b.nameKey(p.name) == b.nameKey(m.showName) && m.tvdbId !in b.indexes {
      assert Browse.Candidate(b, p, m);
    }
  }

  /** A series that matches the programme within the window, or by its label or title, more strongly than every other that does, numbers it. */
  lemma StrongestSeriesNumbers(b: Poll, before: Item, after: Item, m: SeriesMapping)
    requires Outcome(b, before, after) && m in b.mappings && m.tvdbId in b.indexes
    requires Wins(ContestFor(b, m), before.prog) && StrengthOf(ContestFor(b, m), before.prog) > ON_AIR_DATE
    requires forall n :: n in b.mappings && n != m && n.tvdbId in b.indexes && Wins(ContestFor(b, n), before.prog) ==>
               StrengthOf(ContestFor(b, n), before.prog) < StrengthOf(ContestFor(b, m), before.prog)
    ensures var n := Claimed(ContestFor(b, m), before.prog).value;
            after.prog == before.prog.(series := n.season, episodeNum := n.episode, tvdbNumbered := true) && !after.contradicted
  {
    hide Wins, Claimed, BornOutElsewhere;
    assert Takes(b, before.prog, m);
    assert IsNumbered(b, before.prog);
    var n :| n in b.mappings && Takes(b, before.prog, n)
             && after.prog == Apply(before.prog, Claimed(ContestFor(b, n), before.prog).value);
    OneTaker(b, before.prog, m, n);
  }

  /**
   An air date alone, or a title outside the window, numbers a programme exactly
   when no other series its name fits bears out the number it goes out with.
   */
  lemma WeakSeriesYields(b: Poll, p: Programme, m: SeriesMapping)
    requires m in b.mappings && m.tvdbId in b.indexes
    requires Wins(ContestFor(b, m), p) && StrengthOf(ContestFor(b, m), p) <= ON_AIR_DATE
    requires forall n :: n in b.mappings && n != m && n.tvdbId in b.indexes && Wins(ContestFor(b, n), p) ==>
               StrengthOf(ContestFor(b, n), p) < StrengthOf(ContestFor(b, m), p)
    ensures IsNumbered(b, p) <==>
              !(OwnIdentity(p).Numbered?
                && exists n :: n in b.mappings && n != m && b.nameKey(p.name) == b.nameKey(n.showName) && n.tvdbId in b.indexes
                               && BornOut(b.indexes[n.tvdbId], p, (OwnIdentity(p).season, OwnIdentity(p).number)))
  {
    hide Wins, Claimed, GivenNumber, IdentityOf, BornOut;
    GivenNumberIsPrinted(p.(tvdbNumbered := false));
    GivenIgnoresTVDB(p);
    assert Picks(b, p, m);
    if n :| n in b.mappings && n != m && b.nameKey(p.name) == b.nameKey(n.showName) && n.tvdbId in b.indexes
            && OwnIdentity(p).Numbered? && BornOut(b.indexes[n.tvdbId], p, (OwnIdentity(p).season, OwnIdentity(p).number)) {
      assert Browse.Candidate(b, p, n);
      assert BornOutElsewhere(b, p, m);
    }
    if IsNumbered(b, p) {
      var k :| k in b.mappings && Takes(b, p, k);
      assert k == m;
    } else {
      assert !Takes(b, p, m);
    }
  }

  /** A number contradicted by the series it goes out under the name of is marked, whatever the letters' case; one only another series contradicts is not. */
  lemma MarkedUnderItsName(b: Poll, before: Item, after: Item)
    requires Outcome(b, before, after) && !IsNumbered(b, before.prog) && !before.contradicted
    ensures after.contradicted <==>
              exists m :: m in b.mappings && m.tvdbId in b.indexes && IsContradicted(ContestFor(b, m), before.prog)
                && Lower(SanitiseForTitle(if b.customName(before.prog.name) != "" then b.customName(before.prog.name) else before.prog.name))
                   == Lower(SanitiseForTitle(m.showName))
  {
    hide IsContradicted, SanitiseForTitle;
    if m :| m in b.mappings && MarkedBy(b, before.prog, m) {
    }
    if m :| m in b.mappings && m.tvdbId in b.indexes && IsContradicted(ContestFor(b, m), before.prog)
            && Lower(SanitiseForTitle(if b.customName(before.prog.name) != "" then b.customName(before.prog.name) else before.prog.name))
               == Lower(SanitiseForTitle(m.showName)) {
      assert MarkedBy(b, before.prog, m);
    }
  }
}
