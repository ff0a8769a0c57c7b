/**
 Choosing a variant of an HLS master playlist: internal/download/ffmpeg.go,
 resolveHLSVariant and selectVariantByHeight, and internal/bbc/fhdprobe.go,
 pickHighestBandwidthVariant. EXT-X-STREAM-INF is section 4.3.4.2 of RFC 8216.
 */
module Variants {
  import opened Text

  /** hlsVariant; height 0 is a variant without a RESOLUTION. */
  datatype Variant = Variant(bandwidth: int, height: int, url: string)

  const MAX_INT := 9223372036854775807

  // ---- by height ----

  /** How well a height fits the target: exactly, below it, above it. */
  function Level(v: Variant, target: int): int {
    if v.height == target then 0 else if v.height < target then 1 else 2
  }

  /** v fits the target at least as well as w: exact, else largest below, else smallest above; then bandwidth. */
  predicate AtLeastAsGood(v: Variant, w: Variant, target: int) {
    if Level(v, target) != Level(w, target) then Level(v, target) < Level(w, target)
    else if v.height != w.height then if v.height < target then v.height > w.height else v.height < w.height
    else v.bandwidth >= w.bandwidth
  }

  /** The first of the best variants that carry a height. */
  predicate BestVariant(vs: seq<Variant>, target: int, i: nat) {
    && i < |vs| && vs[i].height > 0
    && (forall j :: 0 <= j < |vs| && vs[j].height > 0 ==> AtLeastAsGood(vs[i], vs[j], target))
    && (forall j :: 0 <= j < i && vs[j].height > 0 ==> !AtLeastAsGood(vs[j], vs[i], target))
  }

  lemma BestVariantIsUnique(vs: seq<Variant>, target: int, i: nat, j: nat)
    requires BestVariant(vs, target, i) && BestVariant(vs, target, j)
    ensures i == j
  {
  }

  /** The fit is a total preorder, so "best" means the same whatever it is compared with first. */
  lemma FitIsTotalPreorder(u: Variant, v: Variant, w: Variant, target: int)
    ensures AtLeastAsGood(u, v, target) || AtLeastAsGood(v, u, target)
    ensures AtLeastAsGood(u, v, target) && AtLeastAsGood(v, w, target) ==> AtLeastAsGood(u, w, target)
  {
  }

  /**
   What the best is: a variant of the target's height when one is listed, else
   of the greatest height below it, else of the least above; of those of its
   height none has more bandwidth, and none before it as much.
   */
  lemma BestVariantMeans(vs: seq<Variant>, target: int, i: nat, j: nat)
    requires BestVariant(vs, target, i) && j < |vs| && vs[j].height > 0
    ensures vs[j].height == target ==> vs[i].height == target
    ensures vs[i].height < target && vs[j].height < target ==> vs[j].height <= vs[i].height
    ensures vs[i].height > target ==> vs[j].height >= vs[i].height
    ensures vs[j].height == vs[i].height ==> vs[j].bandwidth <= vs[i].bandwidth
    ensures vs[j].height == vs[i].height && vs[j].bandwidth == vs[i].bandwidth ==> i <= j
  {
  }

  /** The best so far within one level, or None. */
  predicate BestOfLevel(vs: seq<Variant>, n: nat, target: int, level: int, best: Option<nat>) {
    && n <= |vs|
    && (best.None? ==> forall j :: 0 <= j < n && vs[j].height > 0 ==> Level(vs[j], target) != level)
    && (best.Some? ==>
          && best.value < n && vs[best.value].height > 0 && Level(vs[best.value], target) == level
          && (forall j :: 0 <= j < n && vs[j].height > 0 && Level(vs[j], target) == level ==>
                AtLeastAsGood(vs[best.value], vs[j], target))
          && (forall j :: 0 <= j < best.value && vs[j].height > 0 && Level(vs[j], target) == level ==>
                !AtLeastAsGood(vs[j], vs[best.value], target)))
  }

  lemma Accumulate(vs: seq<Variant>, i: nat, target: int, level: int, best: Option<nat>)
    requires i < |vs| && BestOfLevel(vs, i, target, level, best)
    ensures var v := vs[i];
            BestOfLevel(vs, i + 1, target, level,
                        if v.height > 0 && Level(v, target) == level
                           && (best.None? || !AtLeastAsGood(vs[best.value], v, target)) then Some(i) else best)
  {
  }

  /** One pass with three accumulators. */
  method SelectVariantByHeight(vs: seq<Variant>, target: int) returns (r: Option<Variant>)
    ensures r.None? <==> forall i :: 0 <= i < |vs| ==> vs[i].height <= 0
    ensures r.Some? ==> exists i :: 0 <= i < |vs| && BestVariant(vs, target, i) && r.value == vs[i]
  {
    hide BestOfLevel;
    var exact: Option<nat>, below: Option<nat>, above: Option<nat> := None, None, None;
    NothingAccumulated(vs, target);
    for i := 0 to |vs|
      invariant BestOfLevel(vs, i, target, 0, exact)
      invariant BestOfLevel(vs, i, target, 1, below)
      invariant BestOfLevel(vs, i, target, 2, above)
    {
      var v := vs[i];
      Accumulate(vs, i, target, 0, exact);
      Accumulate(vs, i, target, 1, below);
      Accumulate(vs, i, target, 2, above);
      LevelHeights(vs, i, target, exact, below, above);
      if v.height > 0 {
        if v.height == target {
          if exact.None? || v.bandwidth > vs[exact.value].bandwidth {
            exact := Some(i);
          }
        } else if v.height < target {
          if below.None? || v.height > vs[below.value].height
             || (v.height == vs[below.value].height && v.bandwidth > vs[below.value].bandwidth) {
            below := Some(i);
          }
        } else {
          if above.None? || v.height < vs[above.value].height
             || (v.height == vs[above.value].height && v.bandwidth > vs[above.value].bandwidth) {
            above := Some(i);
          }
        }
      }
    }
    var best := if exact.Some? then exact else if below.Some? then below else above;
    FirstLevelWins(vs, target, exact, below, above);
    return if best.Some? then Some(vs[best.value]) else None;
  }

  lemma NothingAccumulated(vs: seq<Variant>, target: int)
    ensures forall level :: BestOfLevel(vs, 0, target, level, None)
  {
  }

  lemma LevelHeights(vs: seq<Variant>, i: nat, target: int, exact: Option<nat>, below: Option<nat>, above: Option<nat>)
    requires BestOfLevel(vs, i, target, 0, exact) && BestOfLevel(vs, i, target, 1, below) && BestOfLevel(vs, i, target, 2, above)
    ensures exact.Some? ==> exact.value < |vs| && vs[exact.value].height == target
    ensures below.Some? ==> below.value < |vs| && vs[below.value].height < target
    ensures above.Some? ==> above.value < |vs| && vs[above.value].height > target
  {
  }

  lemma FirstLevelWins(vs: seq<Variant>, target: int, exact: Option<nat>, below: Option<nat>, above: Option<nat>)
    requires BestOfLevel(vs, |vs|, target, 0, exact) && BestOfLevel(vs, |vs|, target, 1, below)
    requires BestOfLevel(vs, |vs|, target, 2, above)
    ensures var best := if exact.Some? then exact else if below.Some? then below else above;
            && (best.None? <==> forall i :: 0 <= i < |vs| ==> vs[i].height <= 0)
            && (best.Some? ==> BestVariant(vs, target, best.value))
  {
  }

  // ---- by bandwidth ----

  /** The digits after the first BANDWIDTH= that has some. */
  function BandwidthDigits(line: string): Option<string>
    decreases |line|
  {
    if "BANDWIDTH=" <= line && RunLength(line, 10, IsDigit) > 0 then Some(line[10..10 + RunLength(line, 10, IsDigit)])
    else if line == [] then None
    else BandwidthDigits(line[1..])
  }

  /** The bandwidth a stream line advertises, as a number of any size, if the line counts: a tag, digits, and a line after it. */
  function Advertised(lines: seq<string>, i: nat): Option<nat>
    requires i < |lines|
  {
    if !("#EXT-X-STREAM-INF:" <= lines[i]) || i + 1 >= |lines| then None
    else
      match BandwidthDigits(lines[i])
      case None => None
      case Some(digits) => if forall c :: c in digits ==> IsDigit(c) then Some(Value(digits)) else None
  }

  /** What resolveHLSVariant makes of it: strconv.Atoi's error is ignored, and an overflow reads as the largest int. */
  function Clamped(bw: Option<nat>): int {
    match bw
    case None => 0
    case Some(n) => if n > MAX_INT then MAX_INT else n
  }

  /** What pickHighestBandwidthVariant makes of it: a line whose number overflows is skipped. */
  function Skipped(bw: Option<nat>): int {
    match bw
    case None => 0
    case Some(n) => if n > MAX_INT then 0 else n
  }

  /** The first line with the highest positive bandwidth under a reading of the numbers. */
  ghost predicate Highest(lines: seq<string>, read: Option<nat> -> int, best: Option<nat>) {
    && (best.None? ==> forall j :: 0 <= j < |lines| ==> read(Advertised(lines, j)) <= 0)
    && (best.Some? ==>
          && best.value < |lines| && read(Advertised(lines, best.value)) > 0
          && (forall j :: 0 <= j < |lines| ==> read(Advertised(lines, j)) <= read(Advertised(lines, best.value)))
          && (forall j :: 0 <= j < best.value ==> read(Advertised(lines, j)) < read(Advertised(lines, best.value))))
  }

  lemma HighestIsUnique(lines: seq<string>, read: Option<nat> -> int, a: Option<nat>, b: Option<nat>)
    requires Highest(lines, read, a) && Highest(lines, read, b)
    ensures a == b
  {
  }

  function URLAfter(lines: seq<string>, best: Option<nat>): string {
    if best.Some? && best.value + 1 < |lines| then TrimSpace(lines[best.value + 1]) else ""
  }

  /** The bandwidth scan of resolveHLSVariant. */
  method ScanClamping(lines: seq<string>) returns (bestURL: string)
    ensures exists best :: Highest(lines, Clamped, best) && bestURL == URLAfter(lines, best)
  {
    hide Advertised, TrimSpace;
    var bestBW := 0;
    ghost var best: Option<nat> := None;
    bestURL := "";
    for i := 0 to |lines|
      invariant bestURL == URLAfter(lines, best)
      invariant best.None? ==> bestBW == 0
      invariant best.Some? ==> best.value < i && bestBW == Clamped(Advertised(lines, best.value)) > 0
      invariant forall j :: 0 <= j < i ==> Clamped(Advertised(lines, j)) <= bestBW
      invariant best.Some? ==> forall j :: 0 <= j < best.value ==> Clamped(Advertised(lines, j)) < bestBW
    {
      var advertised := Advertised(lines, i);
      if advertised.Some? {
        AdvertisedHasNext(lines, i);
        var bw := Clamped(advertised);
        if bw > bestBW {
          bestBW, bestURL, best := bw, TrimSpace(lines[i + 1]), Some(i);
        }
      }
    }
  }

  /** The bandwidth scan of pickHighestBandwidthVariant. */
  method ScanSkipping(lines: seq<string>) returns (bestURL: string)
    ensures exists best :: Highest(lines, Skipped, best) && bestURL == URLAfter(lines, best)
  {
    hide Advertised, TrimSpace;
    var bestBW := 0;
    ghost var best: Option<nat> := None;
    bestURL := "";
    for i := 0 to |lines|
      invariant bestURL == URLAfter(lines, best)
      invariant best.None? ==> bestBW == 0
      invariant best.Some? ==> best.value < i && bestBW == Skipped(Advertised(lines, best.value)) > 0
      invariant forall j :: 0 <= j < i ==> Skipped(Advertised(lines, j)) <= bestBW
      invariant best.Some? ==> forall j :: 0 <= j < best.value ==> Skipped(Advertised(lines, j)) < bestBW
    {
      var advertised := Advertised(lines, i);
      if advertised.None? || advertised.value > MAX_INT {
        continue;
      }
      AdvertisedHasNext(lines, i);
      if advertised.value > bestBW {
        bestBW, bestURL, best := advertised.value, TrimSpace(lines[i + 1]), Some(i);
      }
    }
  }

  lemma AdvertisedHasNext(lines: seq<string>, i: nat)
    requires i < |lines| && Advertised(lines, i).Some?
    ensures i + 1 < |lines|
  {
  }

  /** A bandwidth beyond the largest int that no line advertising exactly that int precedes. */
  predicate Overflows(lines: seq<string>, i: nat) {
    && i < |lines|
    && Advertised(lines, i).Some? && Advertised(lines, i).value > MAX_INT
    && forall j :: 0 <= j < i ==> Advertised(lines, j) != Some(MAX_INT)
  }

  /**
   The two scans pick the same line of every playlist, except where a
   bandwidth overflows an int before any line advertises the largest int.
   */
  lemma ScansAgree(lines: seq<string>, clamped: Option<nat>, skipped: Option<nat>)
    requires Highest(lines, Clamped, clamped) && Highest(lines, Skipped, skipped)
    ensures clamped == skipped <==> forall i :: 0 <= i < |lines| ==> !Overflows(lines, i)
  {
    hide Advertised;
    if i :| 0 <= i < |lines| && Overflows(lines, i) {
      assert Clamped(Advertised(lines, i)) == MAX_INT;
      var c := clamped.value;
      assert Clamped(Advertised(lines, c)) == MAX_INT && c <= i;
    } else {
      assert Highest(lines, Clamped, skipped) by {
        SkippedIsHighest(lines, skipped);
      }
      HighestIsUnique(lines, Clamped, clamped, skipped);
    }
  }

  lemma SkippedIsHighest(lines: seq<string>, skipped: Option<nat>)
    requires Highest(lines, Skipped, skipped)
    requires forall i :: 0 <= i < |lines| ==> !Overflows(lines, i)
    ensures Highest(lines, Clamped, skipped)
  {
    hide Advertised;
    if o :| 0 <= o < |lines| && Clamped(Advertised(lines, o)) != Skipped(Advertised(lines, o)) {
      FullReadingBefore(lines, o);
      assert skipped.Some? && Skipped(Advertised(lines, skipped.value)) == MAX_INT;
      var s := skipped.value;
      forall j | 0 <= j < s
        ensures Clamped(Advertised(lines, j)) < MAX_INT
      {
        FullReadingBefore(lines, j);
      }
    }
  }

  lemma FullReadingBefore(lines: seq<string>, j: nat)
    requires j < |lines| && !Overflows(lines, j)
    ensures Clamped(Advertised(lines, j)) == MAX_INT ==> exists m :: 0 <= m <= j && Skipped(Advertised(lines, m)) == MAX_INT
  {
    hide Advertised;
    if Advertised(lines, j) == Some(MAX_INT) {
      assert Skipped(Advertised(lines, j)) == MAX_INT;
    } else if Clamped(Advertised(lines, j)) == MAX_INT {
      var m :| 0 <= m < j && Advertised(lines, m) == Some(MAX_INT);
      assert Skipped(Advertised(lines, m)) == MAX_INT;
    }
  }

  /** Where every number fits, the download and the probe agree on the URL. */
  lemma ScansAgreeWhenNumbersFit(lines: seq<string>, clamped: Option<nat>, skipped: Option<nat>)
    requires Highest(lines, Clamped, clamped) && Highest(lines, Skipped, skipped)
    requires forall i :: 0 <= i < |lines| && Advertised(lines, i).Some? ==> Advertised(lines, i).value <= MAX_INT
    ensures URLAfter(lines, clamped) == URLAfter(lines, skipped)
  {
    hide Advertised;
    ScansAgree(lines, clamped, skipped);
  }

  // ---- a playlist the scans disagree on ----

  function StreamLine(bandwidth: nat): string {
    "#EXT-X-STREAM-INF:" + ("BANDWIDTH=" + Decimal(bandwidth))
  }

  lemma {:induction false} DigitsAfter(before: string, rest: string)
    requires 'B' !in before
    ensures BandwidthDigits(before + rest) == BandwidthDigits(rest)
  {
    if before == "" {
      assert before + rest == rest;
    } else {
      assert (before + rest)[0] == before[0] && before[0] in before;
      assert (before + rest)[1..] == before[1..] + rest;
      DigitsAfter(before[1..], rest);
    }
  }

  lemma LineAdvertises(lines: seq<string>, i: nat, bandwidth: nat)
    requires i + 1 < |lines| && lines[i] == StreamLine(bandwidth)
    ensures Advertised(lines, i) == Some(bandwidth)
  {
    hide Decimal;
    var tag, rest := "#EXT-X-STREAM-INF:", "BANDWIDTH=" + Decimal(bandwidth);
    assert 'B' !in tag;
    DigitsAfter(tag, rest);
    DigitsOfAttribute(rest, Decimal(bandwidth));
    ValueOfDecimal(bandwidth);
    assert tag <= lines[i];
  }

  lemma DigitsOfAttribute(rest: string, digits: string)
    requires rest == "BANDWIDTH=" + digits && digits != "" && forall c :: c in digits ==> IsDigit(c)
    ensures BandwidthDigits(rest) == Some(digits)
  {
    forall k | 10 <= k < |rest|
      ensures IsDigit(rest[k])
    {
      assert rest[k] == digits[k - 10];
    }
    RunLengthIs(rest, 10, IsDigit, |digits|);
    assert rest[10..10 + |digits|] == digits;
  }

  /** A playlist of a bandwidth of 1 and one just beyond the largest int: the download takes the second, the probe the first. */
  lemma ScansCanDisagree()
    ensures exists lines: seq<string>, clamped, skipped ::
              && Highest(lines, Clamped, clamped) && Highest(lines, Skipped, skipped)
              && URLAfter(lines, clamped) == "high" && URLAfter(lines, skipped) == "low"
  {
    hide Advertised, Decimal, StreamLine, TrimSpace;
    var lines := [StreamLine(1), "low", StreamLine(MAX_INT + 1), "high"];
    LineAdvertises(lines, 0, 1);
    LineAdvertises(lines, 2, MAX_INT + 1);
    URLLines(lines);
    assert Highest(lines, Clamped, Some(2));
    assert Highest(lines, Skipped, Some(0));
  }

  lemma URLLines(lines: seq<string>)
    requires |lines| == 4 && lines[1] == "low" && lines[3] == "high"
    ensures Advertised(lines, 1) == None && Advertised(lines, 3) == None
    ensures TrimSpace(lines[1]) == "low" && TrimSpace(lines[3]) == "high"
  {
    assert lines[1][0] == 'l' && lines[3][0] == 'h';
    TrimNothing("low", IsSpace);
    TrimNothing("high", IsSpace);
  }
}
