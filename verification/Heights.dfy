/**
 The height lists of the quality prober: internal/bbc/prober.go.
 */
module Heights {
  import opened Text
  import opened Streams

  /** The order the feed relies on: strictly descending, so no height twice. */
  predicate Descending(h: seq<int>) {
    forall i, j :: 0 <= i < j < |h| ==> h[i] > h[j]
  }

  function Members(h: seq<int>): set<int> {
    set x | x in h
  }

  /** Two descending lists of the same heights are the same list. */
  lemma {:induction false} DescendingIsUnique(a: seq<int>, b: seq<int>)
    requires Descending(a) && Descending(b) && Members(a) == Members(b)
    ensures a == b
    decreases |a|
  {
    assert a != [] ==> a[0] in Members(a);
    assert b != [] ==> b[0] in Members(b);
    if a != [] && b != [] {
      TailMembers(a);
      TailMembers(b);
      var i :| 0 <= i < |b| && b[i] == a[0];
      var j :| 0 <= j < |a| && a[j] == b[0];
      assert a[0] == b[0];
      DescendingIsUnique(a[1..], b[1..]);
      assert a == [a[0]] + a[1..] && b == [b[0]] + b[1..];
    }
  }

  lemma TailMembers(a: seq<int>)
    requires a != [] && Descending(a)
    ensures Members(a[1..]) == Members(a) - {a[0]}
  {
    assert a == [a[0]] + a[1..];
  }

  /** sort.Sort(sort.Reverse(...)) after one insertion. */
  function InsertDescending(h: seq<int>, x: int): (r: seq<int>)
    ensures forall y :: y in r <==> y in h || y == x
  {
    if h == [] || x > h[0] then [x] + h
    else
      var r := [h[0]] + InsertDescending(h[1..], x);
      assert forall y :: y in h <==> y == h[0] || y in h[1..];
      r
  }

  lemma PrependKeepsDescending(x: int, h: seq<int>)
    requires Descending(h) && forall y :: y in h ==> x > y
    ensures Descending([x] + h)
  {
    assert forall k :: 0 <= k < |h| ==> h[k] in h;
  }

  lemma {:induction false} InsertKeepsDescending(h: seq<int>, x: int)
    requires Descending(h) && x !in h
    ensures Descending(InsertDescending(h, x))
  {
    if h == [] || x > h[0] {
      PrependKeepsDescending(x, h);
    } else {
      var rest := InsertDescending(h[1..], x);
      assert x != h[0];
      InsertKeepsDescending(h[1..], x);
      forall y | y in rest
        ensures h[0] > y
      {
        assert y == x || y in h[1..];
      }
      PrependKeepsDescending(h[0], rest);
    }
  }

  method DedupedSortedHeights(streams: seq<VideoStream>) returns (out: seq<int>)
    ensures Descending(out)
    ensures Members(out) == set s | s in streams && s.height > 0 :: s.height
  {
    var seen: set<int> := {};
    out := [];
    for i := 0 to |streams|
      invariant Descending(out)
      invariant Members(out) == seen == set s | s in streams[..i] && s.height > 0 :: s.height
    {
      assert streams[..i + 1] == streams[..i] + [streams[i]];
      var h := streams[i].height;
      if h > 0 && h !in seen {
        assert h in out ==> h in Members(out);
        seen := seen + {h};
        InsertKeepsDescending(out, h);
        out := InsertDescending(out, h);
      }
    }
    assert streams[..|streams|] == streams;
  }

  method InsertHeight(heights: seq<int>, h: int) returns (out: seq<int>)
    requires Descending(heights)
    ensures Descending(out) && Members(out) == Members(heights) + {h}
  {
    if h in heights {
      return heights;
    }
    InsertKeepsDescending(heights, h);
    return InsertDescending(heights, h);
  }

  method ReplaceHeight(heights: seq<int>, was: int, with: int) returns (out: seq<int>)
    requires Descending(heights)
    ensures Descending(out)
    ensures Members(out) == Members(heights) - {was} + if with > 0 then {with} else {}
  {
    out := [];
    for i := 0 to |heights|
      invariant Descending(out)
      invariant forall x :: x in out <==> x in heights[..i] && x != was
      invariant forall x :: x in out && i < |heights| ==> x > heights[i]
    {
      assert heights[..i + 1] == heights[..i] + [heights[i]];
      if heights[i] != was {
        assert forall j :: 0 <= j < |out| ==> out[j] in out;
        out := out + [heights[i]];
      }
    }
    assert heights[..|heights|] == heights;
    forall x
      ensures x in Members(out) <==> x in Members(heights) - {was}
    {
      assert x in out <==> x in heights && x != was;
    }
    assert Members(out) == Members(heights) - {was};
    if with > 0 {
      out := InsertHeight(out, with);
    }
  }

  /** Putting a hidden 1080 at the front keeps the order exactly when nothing taller, nor 1080 itself, is listed. */
  lemma PrependedOrder(heights: seq<int>)
    requires Descending(heights)
    ensures Descending([1080] + heights) <==> forall h :: h in heights ==> h < 1080
  {
    var all := [1080] + heights;
    if forall h :: h in heights ==> h < 1080 {
      forall i, j | 0 <= i < j < |all|
        ensures all[i] > all[j]
      {
        assert all[j] == heights[j - 1] && heights[j - 1] in heights;
      }
    }
    if Descending(all) {
      forall h | h in heights
        ensures h < 1080
      {
        var i :| 0 <= i < |heights| && heights[i] == h;
        assert all[0] > all[i + 1];
      }
    }
  }

  /** The order fails for a programme listed in 2160p only down to 720p. */
  lemma PrependedAfter2160()
    ensures Descending([2160, 720]) && !Descending([1080] + [2160, 720])
  {
    var all := [1080] + [2160, 720];
    assert all[0] == 1080 && all[1] == 2160;
  }

  /** liveSuppliersOnly. */
  predicate LiveSuppliersOnly(video: seq<VideoStream>) {
    video != [] && forall s :: s in video ==> HasSuffix(s.supplier, "_live_uk")
  }

  /** One stream of a supplier that is no live channel's makes the programme an on-demand one; streams of live channels alone do not. */
  lemma LiveSuppliersOnlyMeans(video: seq<VideoStream>, s: VideoStream, channel: string)
    ensures !LiveSuppliersOnly([])
    ensures s in video && !HasSuffix(s.supplier, "_live_uk") ==> !LiveSuppliersOnly(video)
    ensures LiveSuppliersOnly([s.(supplier := channel + "_live_uk")])
    ensures LiveSuppliersOnly(video) ==> LiveSuppliersOnly(video + [s.(supplier := channel + "_live_uk")])
  {
    var live := s.(supplier := channel + "_live_uk");
    assert live.supplier[|channel|..] == "_live_uk";
    assert forall x :: x in [live] <==> x == live;
    assert forall x :: x in video + [live] <==> x in video || x == live;
  }

  predicate BestMaster(streams: seq<VideoStream>, s: VideoStream) {
    s in streams && IsHLS(s) && s.bitrate > 0 && forall t :: t in streams && IsHLS(t) ==> t.bitrate <= s.bitrate
  }

  /** The URLs of the best masters among the first streams, once each, in order. */
  function BestURLs(streams: seq<VideoStream>, first: seq<VideoStream>): (urls: seq<string>)
    ensures forall u :: u in urls <==> exists s :: s in first && BestMaster(streams, s) && s.url == u
    ensures forall i, j :: 0 <= i < j < |urls| ==> urls[i] != urls[j]
  {
    if first == [] then []
    else
      var init, s := first[..|first| - 1], first[|first| - 1];
      assert first == init + [s];
      var urls := BestURLs(streams, init);
      if BestMaster(streams, s) && s.url !in urls then urls + [s.url] else urls
  }

  /** bestHLSURLs. */
  method BestHLSURLs(streams: seq<VideoStream>) returns (urls: seq<string>)
    ensures urls == BestURLs(streams, streams)
  {
    var best := 0;
    for i := 0 to |streams|
      invariant best >= 0
      invariant forall t :: t in streams[..i] && IsHLS(t) ==> t.bitrate <= best
      invariant best > 0 ==> exists t :: t in streams && IsHLS(t) && t.bitrate == best
    {
      if IsHLS(streams[i]) && streams[i].bitrate > best {
        best := streams[i].bitrate;
      }
    }
    assert streams[..|streams|] == streams;
    assert forall s :: s in streams ==> (BestMaster(streams, s) <==> IsHLS(s) && s.bitrate == best && best > 0);
    ghost var all := BestURLs(streams, streams);
    assert all != [] ==> all[0] in all;
    urls := [];
    if best == 0 {
      return;
    }
    for i := 0 to |streams|
      invariant urls == BestURLs(streams, streams[..i])
    {
      assert streams[..i + 1][..i] == streams[..i];
      if IsHLS(streams[i]) && streams[i].bitrate == best && streams[i].url !in urls {
        urls := urls + [streams[i].url];
      }
    }
  }
}
