/**
 Episode numbers for series the BBC does not number: internal/bbc/ibl.go,
 assignMissingEpisodeNumbers. Air dates are the times parseLooseDate gives.
 */
module EpisodeNumbers {
  import opened Text

  datatype Entry = Entry(series: int, episodeNum: int, numberAssigned: bool, position: int, aired: int)

  /** A series none of whose entries has an episode number or a position. */
  predicate Unnumbered(es: seq<Entry>, s: int) {
    s > 0 && forall i :: 0 <= i < |es| && es[i].series == s ==> es[i].episodeNum <= 0 && es[i].position <= 0
  }

  ghost function InSeries(es: seq<Entry>, s: int): set<nat> {
    set i | 0 <= i < |es| && es[i].series == s
  }

  /** An entry with only its number changed, and marked. */
  predicate Renumbered(before: Entry, after: Entry) {
    after == before.(episodeNum := after.episodeNum, numberAssigned := true)
  }

  /** The entries of a series carry the numbers 1 to n, once each, in air-date order. */
  ghost predicate NumberedInOrder(before: seq<Entry>, after: seq<Entry>, s: int)
    requires |before| == |after|
  {
    && (forall i :: i in InSeries(before, s) ==>
          Renumbered(before[i], after[i]) && 1 <= after[i].episodeNum <= |InSeries(before, s)|)
    && (forall i, j :: i in InSeries(before, s) && j in InSeries(before, s) && i != j ==>
          after[i].episodeNum != after[j].episodeNum)
    && (forall i, j :: i in InSeries(before, s) && j in InSeries(before, s) && before[i].aired < before[j].aired ==>
          after[i].episodeNum < after[j].episodeNum)
  }

  /** What the call makes of the results. */
  ghost predicate Assigned(before: seq<Entry>, after: seq<Entry>) {
    && |before| == |after|
    && (forall i :: 0 <= i < |before| && !Unnumbered(before, before[i].series) ==> after[i] == before[i])
    && (forall s :: Unnumbered(before, s) ==> NumberedInOrder(before, after, s))
  }

  // ---- the algorithm ----

  predicate SortedByDate(es: seq<Entry>, ix: seq<nat>)
    requires forall k :: 0 <= k < |ix| ==> ix[k] < |es|
  {
    forall k, l :: 0 <= k < l < |ix| ==> es[ix[k]].aired <= es[ix[l]].aired
  }

  /** sort.Slice by date: some arrangement of the indices in which no date precedes an earlier one. */
  method SortByDate(es: seq<Entry>, ix: seq<nat>) returns (sorted: seq<nat>)
    requires forall k :: 0 <= k < |ix| ==> ix[k] < |es|
    requires forall k, l :: 0 <= k < l < |ix| ==> ix[k] != ix[l]
    ensures |sorted| == |ix| && forall i :: i in sorted <==> i in ix
    ensures forall k, l :: 0 <= k < l < |sorted| ==> sorted[k] != sorted[l]
    ensures (forall k :: 0 <= k < |sorted| ==> sorted[k] < |es|) && SortedByDate(es, sorted)
  {
    sorted := [];
    for n := 0 to |ix|
      invariant |sorted| == n && forall i :: i in sorted <==> i in ix[..n]
      invariant forall k, l :: 0 <= k < l < |sorted| ==> sorted[k] != sorted[l]
      invariant (forall k :: 0 <= k < |sorted| ==> sorted[k] < |es|) && SortedByDate(es, sorted)
    {
      assert ix[n] !in ix[..n] && ix[..n + 1] == ix[..n] + [ix[n]];
      sorted := InsertByDate(es, sorted, ix[n]);
    }
    assert ix[..|ix|] == ix;
  }

  method InsertByDate(es: seq<Entry>, sorted: seq<nat>, i: nat) returns (next: seq<nat>)
    requires (forall k :: 0 <= k < |sorted| ==> sorted[k] < |es|) && SortedByDate(es, sorted)
    requires forall k, l :: 0 <= k < l < |sorted| ==> sorted[k] != sorted[l]
    requires i < |es| && i !in sorted
    ensures |next| == |sorted| + 1 && forall x :: x in next <==> x in sorted || x == i
    ensures forall k, l :: 0 <= k < l < |next| ==> next[k] != next[l]
    ensures (forall k :: 0 <= k < |next| ==> next[k] < |es|) && SortedByDate(es, next)
  {
    var at := 0;
    while at < |sorted| && es[sorted[at]].aired <= es[i].aired
      invariant 0 <= at <= |sorted|
      invariant forall k :: 0 <= k < at ==> es[sorted[k]].aired <= es[i].aired
    {
      at := at + 1;
    }
    next := sorted[..at] + [i] + sorted[at..];
    InsertedIsSorted(es, sorted, i, at, next);
    InsertedIsDistinct(sorted, i, at, next);
    assert sorted == sorted[..at] + sorted[at..];
  }

  lemma InsertedIsSorted(es: seq<Entry>, sorted: seq<nat>, i: nat, at: nat, next: seq<nat>)
    requires (forall k :: 0 <= k < |sorted| ==> sorted[k] < |es|) && SortedByDate(es, sorted)
    requires i < |es| && at <= |sorted| && next == sorted[..at] + [i] + sorted[at..]
    requires forall k :: 0 <= k < at ==> es[sorted[k]].aired <= es[i].aired
    requires at < |sorted| ==> es[i].aired < es[sorted[at]].aired
    ensures (forall k :: 0 <= k < |next| ==> next[k] < |es|) && SortedByDate(es, next)
  {
  }

  lemma InsertedIsDistinct(sorted: seq<nat>, i: nat, at: nat, next: seq<nat>)
    requires forall k, l :: 0 <= k < l < |sorted| ==> sorted[k] != sorted[l]
    requires i !in sorted && at <= |sorted| && next == sorted[..at] + [i] + sorted[at..]
    ensures forall k, l :: 0 <= k < l < |next| ==> next[k] != next[l]
  {
    assert forall k :: 0 <= k < |sorted| ==> sorted[k] in sorted;
  }

  /** The indices of each positive series, in order. */
  method GroupBySeries(es: seq<Entry>) returns (bySeries: map<nat, seq<nat>>)
    ensures forall s: nat :: s in bySeries <==> s > 0 && InSeries(es, s) != {}
    ensures forall s :: s in bySeries ==>
              && (forall i :: i in bySeries[s] <==> i in InSeries(es, s))
              && (forall k, l :: 0 <= k < l < |bySeries[s]| ==> bySeries[s][k] != bySeries[s][l])
  {
    bySeries := map[];
    for i := 0 to |es|
      invariant forall s: nat :: s in bySeries <==> s > 0 && exists j :: 0 <= j < i && es[j].series == s
      invariant forall s :: s in bySeries ==>
                  && (forall j: nat :: j in bySeries[s] <==> j < i && es[j].series == s)
                  && (forall k, l :: 0 <= k < l < |bySeries[s]| ==> bySeries[s][k] != bySeries[s][l])
    {
      var s := es[i].series;
      if s > 0 {
        var had := if s in bySeries then bySeries[s] else [];
        assert i !in had;
        bySeries := bySeries[s := had + [i]];
      }
    }
    forall s: nat
      ensures s in bySeries <==> s > 0 && InSeries(es, s) != {}
    {
      if s > 0 && InSeries(es, s) != {} {
        var i :| i in InSeries(es, s);
        assert es[i].series == s;
      }
      if j :| 0 <= j < |es| && es[j].series == s {
        assert j in InSeries(es, s);
      }
    }
  }

  ghost function Elements(ix: seq<nat>): set<nat> {
    set i | i in ix
  }

  lemma {:induction false} DistinctCount(ix: seq<nat>)
    requires forall k, l :: 0 <= k < l < |ix| ==> ix[k] != ix[l]
    ensures |Elements(ix)| == |ix|
  {
    if ix != [] {
      var init, last := ix[..|ix| - 1], ix[|ix| - 1];
      DistinctCount(init);
      assert ix == init + [last];
      assert last !in init;
      assert Elements(ix) == Elements(init) + {last};
    }
  }

  /** Numbering one series in place. */
  method NumberSeries(results: array<Entry>, ghost before: seq<Entry>, s: int, ix: seq<nat>)
    requires |before| == results.Length
    requires forall i :: i in ix <==> i in InSeries(before, s)
    requires forall k, l :: 0 <= k < l < |ix| ==> ix[k] != ix[l]
    requires forall i :: i in ix ==> results[i] == before[i]
    modifies results
    ensures forall i :: 0 <= i < results.Length && i !in ix ==> results[i] == old(results[i])
    ensures NumberedInOrder(before, results[..], s)
  {
    ghost var was := results[..];
    assert forall k :: 0 <= k < |ix| ==> ix[k] in ix;
    var sorted := SortByDate(results[..], ix);
    for ep := 0 to |sorted|
      invariant forall k :: 0 <= k < |sorted| ==>
                  results[sorted[k]] == if k < ep then was[sorted[k]].(episodeNum := k + 1, numberAssigned := true) else was[sorted[k]]
      invariant forall i :: 0 <= i < results.Length && i !in ix ==> results[i] == was[i]
    {
      var i := sorted[ep];
      assert i in sorted;
      results[i] := results[i].(episodeNum := ep + 1, numberAssigned := true);
    }
    DistinctCount(sorted);
    assert InSeries(before, s) == Elements(sorted);
    SortedIsNumbered(before, results[..], s, sorted);
  }

  lemma SortedIsNumbered(before: seq<Entry>, after: seq<Entry>, s: int, sorted: seq<nat>)
    requires |before| == |after| && |InSeries(before, s)| == |sorted|
    requires forall i :: i in sorted <==> i in InSeries(before, s)
    requires (forall k :: 0 <= k < |sorted| ==> sorted[k] < |before|) && SortedByDate(before, sorted)
    requires forall k :: 0 <= k < |sorted| ==> after[sorted[k]] == before[sorted[k]].(episodeNum := k + 1, numberAssigned := true)
    ensures NumberedInOrder(before, after, s)
  {
    forall i | i in InSeries(before, s)
      ensures exists k :: 0 <= k < |sorted| && sorted[k] == i && after[i].episodeNum == k + 1
    {
      assert i in sorted;
      var k :| 0 <= k < |sorted| && sorted[k] == i;
    }
  }

  method AssignMissingEpisodeNumbers(results: array<Entry>)
    modifies results
    ensures Assigned(old(results[..]), results[..])
  {
    hide NumberedInOrder;
    ghost var before := results[..];
    var bySeries := GroupBySeries(results[..]);
    var left := bySeries.Keys;
    while left != {}
      invariant left <= bySeries.Keys
      invariant forall i :: 0 <= i < results.Length ==>
                  results[i] != before[i] ==> before[i].series in bySeries && before[i].series !in left && Unnumbered(before, before[i].series)
      invariant forall s :: s in bySeries && s !in left && Unnumbered(before, s) ==> NumberedInOrder(before, results[..], s)
      decreases |left|
    {
      var s :| s in left;
      var ix := bySeries[s];
      assert forall i :: i in ix ==> results[i] == before[i];
      var allMissing := AllMissing(results, ix);
      MissingIs(before, s, ix);
      ghost var mid := results[..];
      if allMissing {
        NumberSeries(results, before, s, ix);
        forall t | t in bySeries && t !in left && Unnumbered(before, t)
          ensures NumberedInOrder(before, results[..], t)
        {
          OtherSeriesKept(before, mid, results[..], s, t, ix);
        }
      }
      left := left - {s};
    }
    forall s | Unnumbered(before, s)
      ensures NumberedInOrder(before, results[..], s)
    {
      if s !in bySeries {
        EmptySeriesNumbered(before, results[..], s);
      }
    }
  }

  /** The scan for an entry of the series that has a number or a position. */
  method AllMissing(results: array<Entry>, ix: seq<nat>) returns (allMissing: bool)
    requires forall i :: i in ix ==> i < results.Length
    ensures allMissing <==> forall i :: i in ix ==> results[i].episodeNum <= 0 && results[i].position <= 0
  {
    for k := 0 to |ix|
      invariant forall i :: i in ix[..k] ==> i in ix && results[i].episodeNum <= 0 && results[i].position <= 0
    {
      assert ix[k] in ix && ix[..k + 1] == ix[..k] + [ix[k]];
      if results[ix[k]].episodeNum > 0 || results[ix[k]].position > 0 {
        return false;
      }
    }
    assert ix[..|ix|] == ix;
    return true;
  }

  lemma MissingIs(before: seq<Entry>, s: int, ix: seq<nat>)
    requires s > 0 && forall i :: i in ix <==> i in InSeries(before, s)
    ensures Unnumbered(before, s) <==> forall i :: i in ix ==> before[i].episodeNum <= 0 && before[i].position <= 0
  {
    forall i | 0 <= i < |before| && before[i].series == s
      ensures i in ix
    {
      assert i in InSeries(before, s);
    }
  }

  lemma OtherSeriesKept(before: seq<Entry>, mid: seq<Entry>, after: seq<Entry>, s: int, t: int, ix: seq<nat>)
    requires |before| == |mid| == |after| && s != t
    requires forall i :: i in ix <==> i in InSeries(before, s)
    requires forall i :: 0 <= i < |before| && i !in ix ==> after[i] == mid[i]
    requires NumberedInOrder(before, mid, t)
    ensures NumberedInOrder(before, after, t)
  {
    forall i | i in InSeries(before, t)
      ensures after[i] == mid[i]
    {
      assert i !in InSeries(before, s);
    }
  }

  lemma EmptySeriesNumbered(before: seq<Entry>, after: seq<Entry>, s: int)
    requires |before| == |after| && InSeries(before, s) == {}
    ensures NumberedInOrder(before, after, s)
  {
  }

  // ---- what the outcome is ----

  /** One number or position that BBC gives, anywhere in a series, leaves the whole series as it is, and so does having no series. */
  lemma OneNumberKeepsTheSeries(a: seq<Entry>, b: seq<Entry>, i: nat, j: nat)
    requires Assigned(a, b) && i < |a| && j < |a| && a[i].series == a[j].series
    requires a[i].series <= 0 || a[j].episodeNum > 0 || a[j].position > 0
    ensures b[i] == a[i]
  {
  }

  /** And with neither in the series, every entry of it is numbered, from 1, and marked. */
  lemma NoNumberNumbersTheSeries(a: seq<Entry>, b: seq<Entry>, i: nat)
    requires Assigned(a, b) && i < |a| && a[i].series > 0
    requires forall j :: 0 <= j < |a| && a[j].series == a[i].series ==> a[j].episodeNum <= 0 && a[j].position <= 0
    ensures b[i].episodeNum >= 1 && b[i] == a[i].(episodeNum := b[i].episodeNum, numberAssigned := true)
  {
    assert i in InSeries(a, a[i].series);
    assert NumberedInOrder(a, b, a[i].series);
  }

  /** A second call changes nothing. */
  lemma AssigningIsIdempotent(a: seq<Entry>, b: seq<Entry>, c: seq<Entry>)
    requires Assigned(a, b) && Assigned(b, c)
    ensures b == c
  {
    forall i | 0 <= i < |b|
      ensures !Unnumbered(b, b[i].series)
    {
      var s := a[i].series;
      if Unnumbered(a, s) {
        assert i in InSeries(a, s);
        assert NumberedInOrder(a, b, s);
        assert b[i].series == s && b[i].episodeNum >= 1;
      } else {
        StillNumbered(a, b, s, i);
      }
    }
  }

  lemma StillNumbered(a: seq<Entry>, b: seq<Entry>, s: int, i: nat)
    requires Assigned(a, b) && i < |a| && a[i].series == s && !Unnumbered(a, s)
    ensures b[i].series == s && !Unnumbered(b, s)
  {
    if s > 0 {
      var j :| 0 <= j < |a| && a[j].series == s && !(a[j].episodeNum <= 0 && a[j].position <= 0);
      assert b[j] == a[j];
    }
  }

  /** The numbers below one entry's own are as many as they should be. */
  ghost function Below(before: seq<Entry>, after: seq<Entry>, s: int, k: int): set<nat>
    requires |before| == |after|
  {
    set i | i in InSeries(before, s) && after[i].episodeNum < k
  }

  ghost function AtNumber(before: seq<Entry>, after: seq<Entry>, s: int, k: int): set<nat>
    requires |before| == |after|
  {
    set i | i in InSeries(before, s) && after[i].episodeNum == k
  }

  lemma OneAtNumber(before: seq<Entry>, after: seq<Entry>, s: int, k: int)
    requires |before| == |after| && NumberedInOrder(before, after, s)
    ensures |AtNumber(before, after, s, k)| <= 1
    ensures Below(before, after, s, k + 1) == Below(before, after, s, k) + AtNumber(before, after, s, k)
    ensures Below(before, after, s, k) !! AtNumber(before, after, s, k)
    ensures k <= 1 ==> Below(before, after, s, k) == {}
    ensures k > |InSeries(before, s)| ==> Below(before, after, s, k) == InSeries(before, s)
  {
    var at := AtNumber(before, after, s, k);
    if x :| x in at {
      assert at == {x};
    }
  }

  lemma {:induction false} BelowAtMost(before: seq<Entry>, after: seq<Entry>, s: int, k: nat)
    requires |before| == |after| && NumberedInOrder(before, after, s) && k >= 1
    ensures |Below(before, after, s, k)| <= k - 1
    decreases k
  {
    hide NumberedInOrder, Below, AtNumber;
    OneAtNumber(before, after, s, k);
    if k > 1 {
      OneAtNumber(before, after, s, k - 1);
      BelowAtMost(before, after, s, k - 1);
    }
  }

  /** Every number from 1 to the size of the series is used, so an entry's number is one more than how many come below it. */
  lemma NumberIsRank(before: seq<Entry>, after: seq<Entry>, s: int, i: nat)
    requires |before| == |after| && NumberedInOrder(before, after, s) && i in InSeries(before, s)
    ensures |Below(before, after, s, after[i].episodeNum)| == after[i].episodeNum - 1
  {
    var n, k := |InSeries(before, s)|, after[i].episodeNum;
    BelowAtMost(before, after, s, k);
    AboveAtMost(before, after, s, k, n);
    var above := InSeries(before, s) - Below(before, after, s, k);
    assert InSeries(before, s) == Below(before, after, s, k) + above;
  }

  lemma {:induction false} AboveAtMost(before: seq<Entry>, after: seq<Entry>, s: int, k: nat, n: nat)
    requires |before| == |after| && NumberedInOrder(before, after, s) && n == |InSeries(before, s)| && 1 <= k <= n + 1
    ensures |InSeries(before, s) - Below(before, after, s, k)| <= n - k + 1
    decreases n - k
  {
    hide NumberedInOrder, Below, AtNumber, InSeries;
    var all, below, at := InSeries(before, s), Below(before, after, s, k), AtNumber(before, after, s, k);
    OneAtNumber(before, after, s, k);
    if k <= n {
      AboveAtMost(before, after, s, k + 1, n);
      assert all - below <= (all - Below(before, after, s, k + 1)) + at;
      SubsetSize(all - below, (all - Below(before, after, s, k + 1)) + at);
    }
  }

  ghost function Earlier(es: seq<Entry>, i: nat): set<nat>
    requires i < |es|
  {
    set j | j in InSeries(es, es[i].series) && es[j].aired < es[i].aired
  }

  ghost function NotLater(es: seq<Entry>, i: nat): set<nat>
    requires i < |es|
  {
    set j | j in InSeries(es, es[i].series) && es[j].aired <= es[i].aired
  }

  /** However ties fall, an entry's number lies after all its series' earlier entries and within those that are not later. */
  lemma NumberBounds(a: seq<Entry>, b: seq<Entry>, i: nat)
    requires Assigned(a, b) && i < |a| && Unnumbered(a, a[i].series)
    ensures |Earlier(a, i)| + 1 <= b[i].episodeNum <= |NotLater(a, i)|
  {
    var s := a[i].series;
    assert i in InSeries(a, s);
    NumberIsRank(a, b, s, i);
    var below := Below(a, b, s, b[i].episodeNum);
    assert Earlier(a, i) <= below;
    SubsetSize(Earlier(a, i), below);
    assert i !in below && below + {i} <= NotLater(a, i);
    SubsetSize(below + {i}, NotLater(a, i));
  }

  /** No other entry of the series aired when this one did. */
  predicate OwnDate(es: seq<Entry>, i: nat)
    requires i < |es|
  {
    forall j :: 0 <= j < |es| && j != i && es[j].series == es[i].series ==> es[j].aired != es[i].aired
  }

  /** An entry with a date of its own has one possible number, whatever ties the series has elsewhere. */
  lemma OwnDateDecides(a: seq<Entry>, b: seq<Entry>, c: seq<Entry>, i: nat)
    requires Assigned(a, b) && Assigned(a, c) && i < |a| && OwnDate(a, i)
    ensures b[i] == c[i]
    ensures Unnumbered(a, a[i].series) ==> b[i].episodeNum == |Earlier(a, i)| + 1
  {
    var s := a[i].series;
    if Unnumbered(a, s) {
      assert i in InSeries(a, s);
      NumberBounds(a, b, i);
      NumberBounds(a, c, i);
      assert NotLater(a, i) == Earlier(a, i) + {i};
    }
  }
}
