/**
 The order of the download queue and its rearrangement by the operator:
 internal/store/downloads.go. Bolt buckets are maps from id to row, and each
 store call is one transaction.
 */
module Queue {
  import opened Text
  import opened Downloads

  /** The comparator of sortDownloadQueue. */
  predicate Before(a: Download, b: Download) {
    if a.priority != b.priority then a.priority > b.priority
    else if a.showName != b.showName then LexLess(a.showName, b.showName)
    else if a.season != b.season then a.season < b.season
    else if a.episode != b.episode then a.episode < b.episode
    else if a.airDate != b.airDate then LexLess(a.airDate, b.airDate)
    else if a.createdAt != b.createdAt then a.createdAt < b.createdAt
    else LexLess(a.id, b.id)
  }

  /** On rows with distinct ids the comparator is a strict total order. */
  lemma BeforeIsTotal(a: Download, b: Download)
    ensures !Before(a, a)
    ensures a.id != b.id ==> (Before(a, b) <==> !Before(b, a))
  {
    LexTotal(a.showName, b.showName);
    LexTotal(a.airDate, b.airDate);
    LexTotal(a.id, b.id);
    LexTotal(a.id, a.id);
  }

  lemma BeforeIsTransitive(a: Download, b: Download, c: Download)
    requires Before(a, b) && Before(b, c)
    ensures Before(a, c)
  {
    if a.showName != b.showName && b.showName != c.showName {
      if LexLess(a.showName, b.showName) && LexLess(b.showName, c.showName) {
        LexTransitive(a.showName, b.showName, c.showName);
      }
    }
    if a.airDate != b.airDate && b.airDate != c.airDate {
      if LexLess(a.airDate, b.airDate) && LexLess(b.airDate, c.airDate) {
        LexTransitive(a.airDate, b.airDate, c.airDate);
      }
    }
    if LexLess(a.id, b.id) && LexLess(b.id, c.id) {
      LexTransitive(a.id, b.id, c.id);
    }
    LexTotal(a.showName, c.showName);
    LexTotal(a.airDate, c.airDate);
    LexTotal(a.showName, b.showName);
    LexTotal(a.airDate, b.airDate);
  }

  ghost predicate Sorted(q: seq<Download>) {
    forall i, j :: 0 <= i < j < |q| ==> Before(q[i], q[j])
  }

  ghost predicate DistinctIds(rows: set<Download>) {
    forall a, b :: a in rows && b in rows && a.id == b.id ==> a == b
  }

  ghost function Rows(q: seq<Download>): set<Download> {
    set r | r in q
  }

  /** The queue of a set of rows: all of them, once each, in claim order. */
  ghost predicate IsQueue(q: seq<Download>, rows: set<Download>) {
    Sorted(q) && Rows(q) == rows
  }

  lemma SortedHasNoRepeat(q: seq<Download>, i: nat, j: nat)
    requires Sorted(q) && i < j < |q|
    ensures q[i] != q[j]
  {
    BeforeIsTotal(q[i], q[i]);
  }

  lemma FirstIsLeast(q: seq<Download>, r: Download)
    requires Sorted(q) && r in q
    ensures r == q[0] || Before(q[0], r)
  {
  }

  /** A set of rows has one queue: whatever order the bucket is read in, and however the rows were arranged, re-sorting gives it. */
  lemma {:induction false} QueueIsUnique(p: seq<Download>, q: seq<Download>, rows: set<Download>)
    requires IsQueue(p, rows) && IsQueue(q, rows)
    ensures p == q
    decreases |p|
  {
    if p == [] {
      assert forall i :: 0 <= i < |q| ==> q[i] in Rows(q);
    } else {
      assert p[0] in Rows(p);
      assert q != [] by {
        assert p[0] in q;
      }
      assert q[0] in Rows(q);
      FirstIsLeast(p, q[0]);
      FirstIsLeast(q, p[0]);
      if p[0] != q[0] {
        BeforeIsTransitive(p[0], q[0], p[0]);
        BeforeIsTotal(p[0], p[0]);
      }
      TailRows(p);
      TailRows(q);
      QueueIsUnique(p[1..], q[1..], rows - {p[0]});
    }
  }

  lemma TailRows(q: seq<Download>)
    requires q != [] && Sorted(q)
    ensures Rows(q[1..]) == Rows(q) - {q[0]}
  {
    assert q == [q[0]] + q[1..];
    forall j | 1 <= j < |q|
      ensures q[j] != q[0]
    {
      SortedHasNoRepeat(q, 0, j);
    }
  }

  // ---- sorting ----

  function Insert(q: seq<Download>, r: Download): (t: seq<Download>)
    ensures |t| == |q| + 1
    ensures forall x :: x in t <==> x in q || x == r
  {
    if q == [] || Before(r, q[0]) then [r] + q
    else
      assert q == [q[0]] + q[1..];
      [q[0]] + Insert(q[1..], r)
  }

  lemma {:induction false} InsertKeepsSorted(q: seq<Download>, r: Download)
    requires Sorted(q) && forall x :: x in q ==> x.id != r.id
    ensures Sorted(Insert(q, r))
  {
    if q != [] {
      BeforeIsTotal(r, q[0]);
      if Before(r, q[0]) {
        forall j | 1 <= j < |q|
          ensures Before(r, q[j])
        {
          BeforeIsTransitive(r, q[0], q[j]);
        }
      } else {
        var rest := Insert(q[1..], r);
        InsertKeepsSorted(q[1..], r);
        forall j | 0 <= j < |rest|
          ensures Before(q[0], rest[j])
        {
          assert rest[j] in rest;
        }
      }
    }
  }

  /** sort.Slice with the comparator, as far as its result goes. */
  function SortDownloadQueue(rows: seq<Download>): (q: seq<Download>)
    ensures forall r :: r in q <==> r in rows
  {
    if rows == [] then []
    else
      assert rows == rows[..|rows| - 1] + [rows[|rows| - 1]];
      Insert(SortDownloadQueue(rows[..|rows| - 1]), rows[|rows| - 1])
  }

  lemma {:induction false} SortingSorts(rows: seq<Download>)
    requires forall i, j :: 0 <= i < j < |rows| ==> rows[i].id != rows[j].id
    ensures IsQueue(SortDownloadQueue(rows), Rows(rows))
  {
    if rows != [] {
      var init, last := rows[..|rows| - 1], rows[|rows| - 1];
      SortingSorts(init);
      InsertKeepsSorted(SortDownloadQueue(init), last);
    }
  }

  // ---- moving a row ----

  datatype MoveError = NotFound | NotPending | InvalidMove

  datatype MoveResult = Moved(queue: seq<Download>) | Refused(error: MoveError)

  const MOVES: set<string> := {"top", "up", "down", "bottom"}

  /** Where a move puts the row at index idx of a queue of n rows, clamped to the queue. */
  function Destination(op: string, idx: nat, n: nat): (j: nat)
    requires idx < n
    ensures j < n
  {
    if op == "top" then 0
    else if op == "up" then if idx == 0 then 0 else idx - 1
    else if op == "down" then if idx == n - 1 then idx else idx + 1
    else if op == "bottom" then n - 1
    else idx
  }

  /** Removed from index i and inserted again at index j of what remains. */
  function Reinserted<T>(q: seq<T>, i: nat, j: nat): (r: seq<T>)
    requires i < |q| && j < |q|
    ensures |r| == |q|
  {
    var rest := q[..i] + q[i + 1..];
    rest[..j] + [q[i]] + rest[j..]
  }

  /** Priorities from the length at the front down to 1 at the back. */
  function Renumbered(q: seq<Download>): (r: seq<Download>)
    ensures |r| == |q|
    ensures forall i :: 0 <= i < |q| ==> r[i] == q[i].(priority := |q| - i)
  {
    seq(|q|, i requires 0 <= i < |q| => q[i].(priority := |q| - i))
  }

  function IndexOfId(q: seq<Download>, id: string): (i: nat)
    requires exists r :: r in q && r.id == id
    ensures i < |q| && q[i].id == id && forall j :: 0 <= j < i ==> q[j].id != id
  {
    if q[0].id == id then 0
    else
      assert q == [q[0]] + q[1..];
      1 + IndexOfId(q[1..], id)
  }

  /** The queue a move leaves. */
  function Rearranged(q: seq<Download>, id: string, op: string): seq<Download>
    requires exists r :: r in q && r.id == id
  {
    var i := IndexOfId(q, id);
    Renumbered(Reinserted(q, i, Destination(op, i, |q|)))
  }

  function Ids(q: seq<Download>): (ids: seq<string>)
    ensures |ids| == |q|
    ensures forall i :: 0 <= i < |q| ==> ids[i] == q[i].id
  {
    seq(|q|, i requires 0 <= i < |q| => q[i].id)
  }

  /** A reinsertion keeps every row, and the relative order of the others. */
  lemma ReinsertionIsPermutation(q: seq<Download>, i: nat, j: nat)
    requires i < |q| && j < |q|
    ensures |Reinserted(q, i, j)| == |q|
    ensures multiset(Reinserted(q, i, j)) == multiset(q)
    ensures Reinserted(q, i, j)[j] == q[i]
    ensures Reinserted(q, i, j)[..j] + Reinserted(q, i, j)[j + 1..] == q[..i] + q[i + 1..]
  {
    var rest := q[..i] + q[i + 1..];
    assert q == q[..i] + [q[i]] + q[i + 1..];
    assert rest == rest[..j] + rest[j..];
    var r := Reinserted(q, i, j);
    assert r[..j] == rest[..j] && r[j + 1..] == rest[j..];
    assert multiset(q) == multiset(q[..i]) + multiset{q[i]} + multiset(q[i + 1..]);
    assert multiset(rest) == multiset(q[..i]) + multiset(q[i + 1..]);
    assert multiset(rest) == multiset(rest[..j]) + multiset(rest[j..]);
    assert multiset(r) == multiset(rest[..j]) + multiset{q[i]} + multiset(rest[j..]);
    assert multiset(r) == multiset(rest) + multiset{q[i]};
    assert multiset(q) == multiset(rest) + multiset{q[i]};
  }

  /** Renumbering makes the arrangement the order the comparator itself would give. */
  lemma RenumberedIsSorted(q: seq<Download>)
    ensures Sorted(Renumbered(q))
  {
  }

  /** Moving a row up and then down again puts every row back where it was, unless the row already led a longer queue. */
  lemma UpThenDown(q: seq<Download>, id: string)
    requires exists r :: r in q && r.id == id
    requires forall i, j :: 0 <= i < j < |q| ==> q[i].id != q[j].id
    ensures var up := Rearranged(q, id, "up");
            && (exists r :: r in up && r.id == id)
            && (Ids(Rearranged(up, id, "down")) == Ids(q) <==> IndexOfId(q, id) > 0 || |q| == 1)
  {
    hide Reinserted, Rearranged;
    var i := IndexOfId(q, id);
    var j := if i == 0 then 0 else i - 1;
    var up := Rearranged(q, id, "up");
    RearrangedIds(q, id, "up");
    ReinsertedAt(Ids(q), i, j);
    assert up[j].id == id && up[j] in up;
    OnlyAt(up, id, j);
    RearrangedIds(up, id, "down");
    UpDownIds(Ids(q), i);
  }

  /**
   What each move does to the queue: top and bottom take the row to an end
   past all the others, up and down swap it with exactly one neighbour.
   */
  lemma MovesAsNamed(q: seq<Download>, id: string)
    requires exists r :: r in q && r.id == id
    ensures var i, ids := IndexOfId(q, id), Ids(q);
            && Ids(Rearranged(q, id, "top")) == [id] + ids[..i] + ids[i + 1..]
            && Ids(Rearranged(q, id, "bottom")) == ids[..i] + ids[i + 1..] + [id]
            && Ids(Rearranged(q, id, "up")) == (if i == 0 then ids else ids[i - 1 := id][i := ids[i - 1]])
            && Ids(Rearranged(q, id, "down")) == (if i == |q| - 1 then ids else ids[i + 1 := id][i := ids[i + 1]])
  {
    hide Rearranged, Destination, IndexOfId, Ids;
    MovesToTheEnds(q, id);
    MovesByOne(q, id);
  }

  lemma MovesToTheEnds(q: seq<Download>, id: string)
    requires exists r :: r in q && r.id == id
    ensures var i, ids := IndexOfId(q, id), Ids(q);
            && Ids(Rearranged(q, id, "top")) == [id] + ids[..i] + ids[i + 1..]
            && Ids(Rearranged(q, id, "bottom")) == ids[..i] + ids[i + 1..] + [id]
  {
    hide Rearranged, Reinserted, Destination, IndexOfId, Ids;
    var i := IndexOfId(q, id);
    MovedIds(q, id, "top", i);
    MovedIds(q, id, "bottom", i);
    Destinations(i, |q|);
    ToTheEnds(Ids(q), i);
  }

  lemma MovesByOne(q: seq<Download>, id: string)
    requires exists r :: r in q && r.id == id
    ensures var i, ids := IndexOfId(q, id), Ids(q);
            && Ids(Rearranged(q, id, "up")) == (if i == 0 then ids else ids[i - 1 := id][i := ids[i - 1]])
            && Ids(Rearranged(q, id, "down")) == (if i == |q| - 1 then ids else ids[i + 1 := id][i := ids[i + 1]])
  {
    hide Rearranged, Reinserted, Destination, IndexOfId, Ids;
    var i := IndexOfId(q, id);
    MovedIds(q, id, "up", i);
    MovedIds(q, id, "down", i);
    Destinations(i, |q|);
    ToTheNeighbours(Ids(q), i);
  }

  lemma MovedIds(q: seq<Download>, id: string, op: string, i: nat)
    requires exists r :: r in q && r.id == id
    requires i == IndexOfId(q, id)
    ensures Ids(Rearranged(q, id, op)) == Reinserted(Ids(q), i, Destination(op, i, |q|))
  {
    hide Rearranged, Reinserted, Destination, IndexOfId;
    RearrangedIds(q, id, op);
  }

  lemma Destinations(i: nat, n: nat)
    requires i < n
    ensures Destination("top", i, n) == 0 && Destination("bottom", i, n) == n - 1
    ensures Destination("up", i, n) == (if i == 0 then 0 else i - 1)
    ensures Destination("down", i, n) == (if i == n - 1 then i else i + 1)
  {
  }

  lemma ToTheEnds(s: seq<string>, i: nat)
    requires i < |s|
    ensures Reinserted(s, i, 0) == [s[i]] + s[..i] + s[i + 1..]
    ensures Reinserted(s, i, |s| - 1) == s[..i] + s[i + 1..] + [s[i]]
  {
  }

  lemma ToTheNeighbours(s: seq<string>, i: nat)
    requires i < |s|
    ensures Reinserted(s, i, i) == s
    ensures i > 0 ==> Reinserted(s, i, i - 1) == s[i - 1 := s[i]][i := s[i - 1]]
    ensures i + 1 < |s| ==> Reinserted(s, i, i + 1) == s[i + 1 := s[i]][i := s[i + 1]]
  {
    hide Reinserted;
    ToItsPlace(s, i);
    if i > 0 {
      OneUp(s, i);
    }
    if i + 1 < |s| {
      OneDown(s, i);
    }
  }

  lemma ToItsPlace(s: seq<string>, i: nat)
    requires i < |s|
    ensures Reinserted(s, i, i) == s
  {
    var rest := s[..i] + s[i + 1..];
    assert rest[..i] == s[..i] && rest[i..] == s[i + 1..];
  }

  lemma OneUp(s: seq<string>, i: nat)
    requires 0 < i < |s|
    ensures Reinserted(s, i, i - 1) == s[i - 1 := s[i]][i := s[i - 1]]
  {
    var rest := s[..i] + s[i + 1..];
    assert rest[..i - 1] == s[..i - 1] && rest[i - 1..] == [s[i - 1]] + s[i + 1..];
  }

  lemma OneDown(s: seq<string>, i: nat)
    requires i + 1 < |s|
    ensures Reinserted(s, i, i + 1) == s[i + 1 := s[i]][i := s[i + 1]]
  {
    var rest := s[..i] + s[i + 1..];
    assert rest[..i + 1] == s[..i] + [s[i + 1]] && rest[i + 1..] == s[i + 2..];
  }

  /** At the front of two it swaps them. */
  lemma UpThenDownSwapsFrontRow(a: Download, b: Download)
    requires a.id != b.id
    ensures Ids(Rearranged([a, b], a.id, "up")) == [a.id, b.id]
    ensures var up := Rearranged([a, b], a.id, "up");
            (exists r :: r in up && r.id == a.id) && Ids(Rearranged(up, a.id, "down")) == [b.id, a.id]
  {
    hide Rearranged;
    var q := [a, b];
    assert q[0] == a && a in q && q[0].id == a.id;
    assert IndexOfId(q, a.id) == 0;
    var up := Rearranged(q, a.id, "up");
    MovesAsNamed(q, a.id);
    assert Ids(q) == [a.id, b.id];
    assert up[0].id == Ids(up)[0] == a.id && up[0] in up;
    assert IndexOfId(up, a.id) == 0;
    MovesAsNamed(up, a.id);
  }

  lemma ReinsertedIndex<T>(s: seq<T>, i: nat, j: nat, k: nat)
    requires i < |s| && j < |s| && k < |s|
    ensures Reinserted(s, i, j)[k] ==
            if k == j then s[i] else if k < j then if k < i then s[k] else s[k + 1] else if k <= i then s[k - 1] else s[k]
  {
  }

  lemma RearrangedIds(q: seq<Download>, id: string, op: string)
    requires exists r :: r in q && r.id == id
    ensures var i := IndexOfId(q, id);
            |Rearranged(q, id, op)| == |q| && Ids(Rearranged(q, id, op)) == Reinserted(Ids(q), i, Destination(op, i, |q|))
  {
    hide Reinserted;
    var i := IndexOfId(q, id);
    var j := Destination(op, i, |q|);
    forall k | 0 <= k < |q|
      ensures Ids(Rearranged(q, id, op))[k] == Reinserted(Ids(q), i, j)[k]
    {
      ReinsertedIndex(q, i, j, k);
      ReinsertedIndex(Ids(q), i, j, k);
    }
  }

  lemma ReinsertedAt(s: seq<string>, i: nat, j: nat)
    requires i < |s| && j < |s|
    requires forall a, b :: 0 <= a < b < |s| ==> s[a] != s[b]
    ensures Reinserted(s, i, j)[j] == s[i]
    ensures forall k :: 0 <= k < |s| && k != j ==> Reinserted(s, i, j)[k] != s[i]
  {
  }

  lemma OnlyAt(q: seq<Download>, id: string, j: nat)
    requires j < |q| && q[j].id == id && q[j] in q
    requires forall k :: 0 <= k < |q| && k != j ==> Ids(q)[k] != id
    ensures IndexOfId(q, id) == j
  {
    var k := IndexOfId(q, id);
    assert Ids(q)[k] == id;
  }

  lemma UpDownIds(s: seq<string>, i: nat)
    requires i < |s|
    requires forall a, b :: 0 <= a < b < |s| ==> s[a] != s[b]
    ensures i > 0 ==> Reinserted(Reinserted(s, i, i - 1), i - 1, i) == s
    ensures i == 0 ==> Reinserted(s, 0, 0) == s
    ensures i == 0 && |s| > 1 ==> Reinserted(s, 0, 1) != s
  {
    hide Reinserted;
    if i > 0 {
      forall k | 0 <= k < |s|
        ensures Reinserted(Reinserted(s, i, i - 1), i - 1, i)[k] == s[k]
      {
        var up := Reinserted(s, i, i - 1);
        ReinsertedIndex(up, i - 1, i, k);
        ReinsertedIndex(s, i, i - 1, if k == i then i - 1 else if k == i - 1 then i else k);
      }
    } else {
      forall k | 0 <= k < |s|
        ensures Reinserted(s, 0, 0)[k] == s[k]
      {
        ReinsertedIndex(s, 0, 0, k);
      }
      if |s| > 1 {
        ReinsertedIndex(s, 0, 1, 0);
      }
    }
  }
}
