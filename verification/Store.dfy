/**
 The Bolt store: internal/store/downloads.go and internal/store/history.go.
 A bucket is a map from id to row; ForEach yields its rows in some order.
 */
module Store {
  import opened Text
  import opened Downloads
  import opened Queue

  type Bucket = map<string, Download>

  ghost predicate WellKeyed(b: Bucket) {
    forall id :: id in b ==> b[id].id == id
  }

  /** The row is for this programme in this quality. */
  predicate Matches(r: Download, pid: string, quality: string) {
    r.pid == pid && r.quality == quality
  }

  ghost function PendingRows(b: Bucket): set<Download> {
    set id | id in b && b[id].status == Pending :: b[id]
  }

  /** The queue of a set of rows, in the one order the comparator allows. */
  ghost function QueueOf(rows: set<Download>): (q: seq<Download>)
    requires DistinctIds(rows)
    ensures IsQueue(q, rows)
  {
    if rows == {} then []
    else
      var r :| r in rows;
      var q := QueueOf(rows - {r});
      assert forall x :: x in q ==> x in Rows(q);
      InsertKeepsSorted(q, r);
      assert forall x :: x in Insert(q, r) <==> x in Rows(q) || x == r;
      Insert(q, r)
  }

  lemma PendingDistinct(b: Bucket)
    requires WellKeyed(b)
    ensures DistinctIds(PendingRows(b))
  {
  }

  /** The pending queue of a bucket. */
  ghost function PendingQueue(b: Bucket): (q: seq<Download>)
    requires WellKeyed(b)
    ensures IsQueue(q, PendingRows(b))
  {
    PendingDistinct(b);
    QueueOf(PendingRows(b))
  }

  lemma QueueIds(q: seq<Download>, b: Bucket)
    requires WellKeyed(b) && IsQueue(q, PendingRows(b))
    ensures forall i, j :: 0 <= i < j < |q| ==> q[i].id != q[j].id
    ensures forall i :: 0 <= i < |q| ==> q[i].id in b && b[q[i].id] == q[i] && q[i].status == Pending
    ensures forall id :: id in b && b[id].status == Pending ==> b[id] in q
  {
    forall i | 0 <= i < |q|
      ensures q[i].id in b && b[q[i].id] == q[i] && q[i].status == Pending
    {
      assert q[i] in Rows(q);
    }
    forall i, j | 0 <= i < j < |q|
      ensures q[i].id != q[j].id
    {
      SortedHasNoRepeat(q, i, j);
    }
    forall id | id in b && b[id].status == Pending
      ensures b[id] in q
    {
      assert b[id] in Rows(q);
    }
  }

  /** The rows of a bucket that a scan keeps, in whatever order it meets them. */
  method Scan(b: Bucket, keep: Download -> bool) returns (rows: seq<Download>)
    requires WellKeyed(b)
    ensures forall r :: r in rows <==> r.id in b && b[r.id] == r && keep(r)
    ensures forall i, j :: 0 <= i < j < |rows| ==> rows[i].id != rows[j].id
  {
    rows := [];
    var left := b.Keys;
    while left != {}
      invariant left <= b.Keys
      invariant forall r :: r in rows <==> r.id in b && r.id !in left && b[r.id] == r && keep(r)
      invariant forall i, j :: 0 <= i < j < |rows| ==> rows[i].id != rows[j].id
      decreases |left|
    {
      var id :| id in left;
      if keep(b[id]) {
        forall i | 0 <= i < |rows|
          ensures rows[i].id != id
        {
          assert rows[i] in rows;
        }
        rows := rows + [b[id]];
      }
      left := left - {id};
    }
  }

  // ---- the in-place splice ----

  /** append(pending[:idx], pending[idx+1:]...): the rows after idx move one place down over it. */
  method CloseGap(a: array<Download>, idx: nat)
    requires idx < a.Length
    modifies a
    ensures a[..a.Length - 1] == old(a[..idx] + a[idx + 1..])
  {
    ghost var q := a[..];
    for k := idx to a.Length - 1
      invariant forall j :: 0 <= j < idx ==> a[j] == q[j]
      invariant forall j :: idx <= j < k ==> a[j] == q[j + 1]
      invariant forall j :: k <= j < a.Length ==> a[j] == q[j]
    {
      assert a[k + 1] == q[k + 1];
      a[k] := a[k + 1];
    }
    assert a[..idx] == q[..idx];
    assert a[idx..a.Length - 1] == q[idx + 1..];
    assert a[..a.Length - 1] == a[..idx] + a[idx..a.Length - 1];
  }

  /** append(pending[:at], tail...) within the array's capacity. */
  method WriteTail(a: array<Download>, at: nat, tail: seq<Download>)
    requires at + |tail| == a.Length
    modifies a
    ensures a[..] == old(a[..at]) + tail
  {
    for k := 0 to |tail|
      invariant a[..at] == old(a[..at])
      invariant forall j :: 0 <= j < k ==> a[at + j] == tail[j]
    {
      a[at + k] := tail[k];
    }
    assert a[at..] == tail;
    assert a[..] == a[..at] + a[at..];
  }

  /** The two appends of MoveDownload over one backing array: the gap is closed in place, then the row and a copy of the tail are written. */
  method Splice(a: array<Download>, idx: nat, newIdx: nat)
    requires idx < a.Length && newIdx < a.Length
    modifies a
    ensures a[..] == Reinserted(old(a[..]), idx, newIdx)
  {
    ghost var q := a[..];
    var moved := a[idx];
    CloseGap(a, idx);
    ghost var rest := q[..idx] + q[idx + 1..];
    var tail := [moved] + a[newIdx..a.Length - 1];
    assert a[..newIdx] == rest[..newIdx] && a[newIdx..a.Length - 1] == rest[newIdx..];
    WriteTail(a, newIdx, tail);
    assert a[..] == rest[..newIdx] + [q[idx]] + rest[newIdx..];
  }

  /** The rows of a list are the bucket's, under distinct ids. */
  ghost predicate Stored(q: seq<Download>, b: Bucket) {
    && (forall i, j :: 0 <= i < j < |q| ==> q[i].id != q[j].id)
    && (forall i :: 0 <= i < |q| ==> q[i].id in b && b[q[i].id] == q[i])
  }

  ghost predicate SameBut(before: Bucket, after: Bucket, ids: seq<string>) {
    forall k :: k in before && k in after && k !in ids ==> after[k] == before[k]
  }

  lemma SameButItself(b: Bucket, ids: seq<string>)
    ensures SameBut(b, b, ids)
  {
  }

  lemma StoredRow(q: seq<Download>, b: Bucket, i: nat)
    requires Stored(q, b) && i < |q|
    ensures q[i].id in b && b[q[i].id] == q[i]
  {
  }

  /** The first i rows renumbered. */
  ghost function RenumberedTo(q: seq<Download>, i: nat): (r: seq<Download>)
    ensures |r| == |q|
    ensures forall k :: 0 <= k < |q| ==> r[k] == if k < i then q[k].(priority := |q| - k) else q[k]
    ensures i == 0 ==> r == q
    ensures i == |q| ==> r == Renumbered(q)
  {
    var r := seq(|q|, k requires 0 <= k < |q| => if k < i then q[k].(priority := |q| - k) else q[k]);
    assert i == 0 ==> r == q;
    assert i == |q| ==> r == Renumbered(q);
    r
  }

  lemma PutRenumbered(q: seq<Download>, before: Bucket, b: Bucket, i: nat)
    requires i < |q| && WellKeyed(b) && Stored(RenumberedTo(q, i), b) && SameBut(before, b, Ids(q))
    ensures var row := q[i].(priority := |q| - i);
            && WellKeyed(b[row.id := row]) && Stored(RenumberedTo(q, i + 1), b[row.id := row])
            && SameBut(before, b[row.id := row], Ids(q))
            && b[row.id := row].Keys == b.Keys
            && (q[i].priority == |q| - i ==> b[row.id := row] == b)
  {
    var now, next := RenumberedTo(q, i), RenumberedTo(q, i + 1);
    var row := q[i].(priority := |q| - i);
    assert now[i] == q[i] && next[i] == row;
    assert Ids(q)[i] == row.id;
    forall k | 0 <= k < |q|
      ensures next[k].id == now[k].id
    {
    }
  }

  class Store {
    var downloads: Bucket
    var history: Bucket

    ghost predicate Valid()
      reads this
    {
      WellKeyed(downloads) && WellKeyed(history)
    }

    constructor ()
      ensures Valid() && downloads == map[] && history == map[]
    {
      downloads, history := map[], map[];
    }

    method ListDownloads() returns (q: seq<Download>)
      requires Valid()
      ensures IsQueue(q, downloads.Values)
    {
      var rows := Scan(downloads, _ => true);
      SortingSorts(rows);
      q := SortDownloadQueue(rows);
      assert Rows(rows) == downloads.Values by {
        forall r | r in downloads.Values ensures r in rows {
          var id :| id in downloads && downloads[id] == r;
        }
      }
    }

    method PendingDownloads() returns (out: seq<Download>)
      requires Valid()
      ensures out == PendingQueue(downloads)
    {
      var all := ListDownloads();
      out := [];
      for i := 0 to |all|
        invariant forall r :: r in out <==> r in all[..i] && r.status == Pending
        invariant Sorted(out)
      {
        assert all[..i + 1] == all[..i] + [all[i]];
        if all[i].status == Pending {
          forall k | 0 <= k < |out|
            ensures Before(out[k], all[i])
          {
            assert out[k] in out;
          }
          out := out + [all[i]];
        }
      }
      assert all[..|all|] == all;
      assert Rows(out) == PendingRows(downloads) by {
        forall r
          ensures r in Rows(out) <==> r in PendingRows(downloads)
        {
          assert r in all <==> r in Rows(all);
        }
      }
      QueueIsUnique(out, PendingQueue(downloads), PendingRows(downloads));
    }

    /** The renumbering loop: only rows whose priority differs are written. */
    method Renumber(a: array<Download>)
      requires Valid() && Stored(a[..], downloads)
      modifies a, this`downloads
      ensures Valid() && downloads.Keys == old(downloads).Keys
      ensures a[..] == Renumbered(old(a[..])) && Stored(a[..], downloads)
      ensures SameBut(old(downloads), downloads, old(Ids(a[..])))
    {
      hide Stored, SameBut;
      ghost var q, before := a[..], downloads;
      assert SameBut(before, downloads, Ids(q)) by { SameButItself(before, Ids(q)); }
      for i := 0 to a.Length
        invariant Valid() && downloads.Keys == before.Keys
        invariant a[..] == RenumberedTo(q, i) && Stored(a[..], downloads)
        invariant SameBut(before, downloads, Ids(q))
      {
        var want := a.Length - i;
        assert a[i] == a[..][i] == q[i];
        StoredRow(a[..], downloads, i);
        PutRenumbered(q, before, downloads, i);
        if a[i].priority != want {
          a[i] := a[i].(priority := want);
          assert a[..] == RenumberedTo(q, i)[i := a[i]] == RenumberedTo(q, i + 1);
          downloads := downloads[a[i].id := a[i]];
        } else {
          assert RenumberedTo(q, i)[i := a[i]] == RenumberedTo(q, i + 1) == RenumberedTo(q, i);
        }
      }
    }

    /** FindDownloadByPIDQuality: the last match the scan meets. */
    method FindDownload(pid: string, quality: string) returns (found: Option<Download>)
      requires Valid()
      ensures found.None? <==> forall id :: id in downloads ==> !Matches(downloads[id], pid, quality)
      ensures found.Some? ==> found.value.id in downloads && downloads[found.value.id] == found.value
                              && Matches(found.value, pid, quality)
    {
      found := None;
      var left := downloads.Keys;
      while left != {}
        invariant left <= downloads.Keys
        invariant found.None? <==> forall id :: id in downloads && id !in left ==> !Matches(downloads[id], pid, quality)
        invariant found.Some? ==> found.value.id in downloads && downloads[found.value.id] == found.value
                                  && Matches(found.value, pid, quality)
        decreases |left|
      {
        var id :| id in left;
        if Matches(downloads[id], pid, quality) {
          found := Some(downloads[id]);
        }
        left := left - {id};
      }
    }

    /**
     FindHistoryByPIDQuality. Whichever row the scan ends on, it finds one when
     there is one, and a row that did not fail when there is one.
     */
    method FindHistory(pid: string, quality: string) returns (found: Option<Download>)
      requires Valid()
      ensures found.None? <==> forall id :: id in history ==> !Matches(history[id], pid, quality)
      ensures found.Some? ==> found.value.id in history && history[found.value.id] == found.value
                              && Matches(found.value, pid, quality)
      ensures (found.Some? && found.value.status != Failed) <==>
              exists id :: id in history && Matches(history[id], pid, quality) && history[id].status != Failed
    {
      found := None;
      var left := history.Keys;
      while left != {}
        invariant left <= history.Keys
        invariant found.None? <==> forall id :: id in history && id !in left ==> !Matches(history[id], pid, quality)
        invariant found.Some? ==> found.value.id in history && history[found.value.id] == found.value
                                  && Matches(found.value, pid, quality)
        invariant (found.Some? && found.value.status != Failed) <==>
                  exists id :: id in history && id !in left && Matches(history[id], pid, quality) && history[id].status != Failed
        decreases |left|
      {
        var id :| id in left;
        var row := history[id];
        if Matches(row, pid, quality) && !(found.Some? && found.value.status != Failed && row.status == Failed) {
          found := Some(row);
        }
        left := left - {id};
      }
    }

    /** The part of MoveDownload past its refusals. */
    method Rearrange(q: seq<Download>, id: string, op: string) returns (queue: seq<Download>)
      requires Valid() && q == PendingQueue(downloads)
      requires exists row :: row in q && row.id == id
      modifies this`downloads
      ensures Valid() && downloads.Keys == old(downloads).Keys
      ensures queue == PendingQueue(downloads) == Rearranged(q, id, op)
      ensures forall k :: k in downloads && old(downloads)[k].status != Pending ==> downloads[k] == old(downloads)[k]
    {
      hide Stored, SameBut, Reinserted, PendingQueue, PendingRows, Destination, Ids, Sorted, Rows;
      QueueIds(q, downloads);
      var idx := IndexOfId(q, id);
      var a := new Download[|q|](i requires 0 <= i < |q| => q[i]);
      assert a[..] == q;
      var newIdx := Destination(op, idx, |q|);
      if newIdx != idx {
        Splice(a, idx, newIdx);
      } else {
        ReinsertedInPlace(q, idx);
      }
      ghost var moved, before := Reinserted(q, idx, newIdx), downloads;
      assert a[..] == moved;
      ReinsertedRows(q, idx, newIdx);
      MovedAreStored(q, moved, before);
      Renumber(a);
      RenumberedQueue(before, downloads, moved);
      QueueIsUnique(a[..], PendingQueue(downloads), PendingRows(downloads));
      OthersUntouched(before, downloads, moved);
      queue := a[..];
    }

    /** MoveDownload: one transaction that renumbers the pending rows, or an error that changes nothing. */
    method MoveDownload(id: string, op: string) returns (r: MoveResult)
      requires Valid()
      modifies this`downloads
      ensures Valid() && downloads.Keys == old(downloads).Keys
      ensures r == if op !in MOVES then Refused(InvalidMove)
                   else if id !in old(downloads) then Refused(NotFound)
                   else if old(downloads)[id].status != Pending then Refused(NotPending)
                   else Moved(PendingQueue(downloads))
      ensures r.Refused? ==> downloads == old(downloads)
      ensures r.Moved? ==>
                && (exists row :: row in PendingQueue(old(downloads)) && row.id == id)
                && r.queue == Rearranged(PendingQueue(old(downloads)), id, op)
      ensures forall k :: k in downloads && old(downloads)[k].status != Pending ==> downloads[k] == old(downloads)[k]
    {
      if op !in MOVES {
        return Refused(InvalidMove);
      }
      if id !in downloads {
        return Refused(NotFound);
      }
      if downloads[id].status != Pending {
        return Refused(NotPending);
      }
      var q := PendingDownloads();
      QueueIds(q, downloads);
      assert downloads[id] in q;
      var queue := Rearrange(q, id, op);
      r := Moved(queue);
    }
  }

  lemma MovedAreStored(q: seq<Download>, moved: seq<Download>, b: Bucket)
    requires forall i :: 0 <= i < |q| ==> q[i].id in b && b[q[i].id] == q[i] && q[i].status == Pending
    requires forall id :: id in b && b[id].status == Pending ==> b[id] in q
    requires forall x :: x in moved <==> x in q
    requires forall i, j :: 0 <= i < j < |moved| ==> moved[i].id != moved[j].id
    ensures Stored(moved, b)
    ensures forall r :: r in moved <==> r.id in b && b[r.id] == r && r.status == Pending
  {
    forall i | 0 <= i < |moved|
      ensures moved[i].id in b && b[moved[i].id] == moved[i]
    {
      assert moved[i] in q;
    }
  }

  lemma OthersUntouched(before: Bucket, after: Bucket, moved: seq<Download>)
    requires after.Keys == before.Keys && SameBut(before, after, Ids(moved))
    requires forall r :: r in moved ==> r.id in before && before[r.id] == r && r.status == Pending
    ensures forall k :: k in after && before[k].status != Pending ==> after[k] == before[k]
  {
    forall k | k in Ids(moved)
      ensures k in before && before[k].status == Pending
    {
      var i :| 0 <= i < |moved| && Ids(moved)[i] == k;
      assert moved[i] in moved;
    }
  }

  lemma ReinsertedInPlace(q: seq<Download>, i: nat)
    requires i < |q|
    ensures Reinserted(q, i, i) == q
  {
  }

  lemma ReinsertedRows(q: seq<Download>, i: nat, j: nat)
    requires i < |q| && j < |q|
    requires forall a, b :: 0 <= a < b < |q| ==> q[a].id != q[b].id
    ensures var r := Reinserted(q, i, j);
            && (forall x :: x in r <==> x in q)
            && (forall a, b :: 0 <= a < b < |r| ==> r[a].id != r[b].id)
  {
    hide Reinserted;
    var r := Reinserted(q, i, j);
    ReinsertionIsPermutation(q, i, j);
    forall x
      ensures x in r <==> x in q
    {
      assert x in r <==> x in multiset(r);
      assert x in q <==> x in multiset(q);
    }
    forall a, b | 0 <= a < b < |r|
      ensures r[a].id != r[b].id
    {
      ReinsertedIndex(q, i, j, a);
      ReinsertedIndex(q, i, j, b);
    }
  }

  /** The renumbered rows, as stored, are the pending queue of the bucket. */
  lemma RenumberedQueue(before: Bucket, after: Bucket, moved: seq<Download>)
    requires WellKeyed(before) && WellKeyed(after) && after.Keys == before.Keys
    requires Stored(Renumbered(moved), after) && SameBut(before, after, Ids(moved))
    requires forall r :: r in moved <==> r.id in before && before[r.id] == r && r.status == Pending
    ensures IsQueue(Renumbered(moved), PendingRows(after))
  {
    var q := Renumbered(moved);
    RenumberedIsSorted(moved);
    forall r | r in q
      ensures r in PendingRows(after)
    {
      var i :| 0 <= i < |q| && q[i] == r;
      assert moved[i] in moved;
    }
    forall id | id in before && before[id].status == Pending
      ensures id in Ids(moved)
    {
      assert before[id] in moved;
      var i :| 0 <= i < |moved| && moved[i] == before[id];
      assert Ids(moved)[i] == id;
    }
    forall r | r in PendingRows(after)
      ensures r in q
    {
      assert r.id in Ids(moved);
      var i :| 0 <= i < |q| && Ids(moved)[i] == r.id;
      assert q[i] == r;
    }
  }
}
