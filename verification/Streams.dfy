/**
 Which stream an attempt uses: internal/download/worker.go, pickStream and
 attemptQuality, over runs of supplier refusals.
 */
module Streams {
  import opened Text
  import opened Downloads

  datatype VideoStream = VideoStream(url: string, height: int, bitrate: int, format: string, supplier: string)

  const NO_STREAM := VideoStream("", 0, 0, "", "")

  // ---- heights and tags ----

  function QualityToHeight(quality: string): int {
    match Atoi(TrimSuffix(Lower(quality), "p"))
    case None => 720
    case Some(h) => h
  }

  /** A quality that starts with neither a digit nor a sign asks for 720. */
  lemma UnknownQualityIs720(quality: string)
    requires quality == "" || (!IsDigit(quality[0]) && quality[0] !in "+-")
    ensures QualityToHeight(quality) == 720
  {
    var q := TrimSuffix(Lower(quality), "p");
    if q != "" {
      assert q[0] == LowerChar(quality[0]) && q[0] !in "+-";
      RunLengthIs(q, 0, IsDigit, 0);
    }
  }

  const QUALITY_LADDER: seq<int> := [2160, 1080, 720, 540, 396]

  /** The first rung at or below a height, or the lowest. */
  function RungOf(height: int): (i: nat)
    ensures i < |QUALITY_LADDER|
    ensures i + 1 < |QUALITY_LADDER| ==> QUALITY_LADDER[i] <= height
    ensures forall j :: 0 <= j < i ==> height < QUALITY_LADDER[j]
  {
    if height >= 2160 then 0 else if height >= 1080 then 1 else if height >= 720 then 2 else if height >= 540 then 3 else 4
  }

  /** The scan of degradeHeight over the ladder. */
  method FindRung(height: int) returns (idx: nat)
    ensures idx == RungOf(height)
  {
    idx := |QUALITY_LADDER| - 1;
    for i := 0 to |QUALITY_LADDER|
      invariant idx == |QUALITY_LADDER| - 1
      invariant forall k :: 0 <= k < i ==> height < QUALITY_LADDER[k]
    {
      if height >= QUALITY_LADDER[i] {
        assert i > 0 ==> height < QUALITY_LADDER[i - 1];
        return i;
      }
    }
  }

  function DegradeHeight(requested: int, steps: int): int {
    if steps < 1 then requested
    else
      var i := RungOf(requested) + steps;
      QUALITY_LADDER[if i >= |QUALITY_LADDER| then |QUALITY_LADDER| - 1 else i]
  }

  function HeightToQualityTag(h: int): string {
    if h >= 2160 then "2160p" else if h >= 1080 then "1080p" else if h >= 720 then "720p"
    else if h >= 540 then "540p" else if h >= 396 then "396p" else ""
  }

  predicate ShouldDegrade(dl: Download) {
    dl.cdnFailures > 0 && dl.failureCode in {FFmpeg, Truncated}
  }

  function AttemptQuality(dl: Download): (int, string) {
    var target := QualityToHeight(dl.quality);
    if !ShouldDegrade(dl) then (target, dl.quality)
    else
      var degraded := DegradeHeight(target, dl.cdnFailures);
      if degraded == target then (target, dl.quality)
      else (degraded, if HeightToQualityTag(degraded) != "" then HeightToQualityTag(degraded) else dl.quality)
  }

  /**
   Degrading never goes up, with one exception: a request below the lowest
   rung is raised to it, though the function promises to leave it alone.
   */
  lemma DegradeGoesDown(requested: int, steps: int)
    ensures DegradeHeight(requested, steps) <= requested <==> steps < 1 || requested >= 396
    ensures steps >= 1 && requested > 396 ==> DegradeHeight(requested, steps) < requested
    ensures DegradeHeight(requested, steps + 1) <= DegradeHeight(requested, steps)
            <==> steps + 1 < 1 || steps >= 1 || requested >= 396
  {
  }

  lemma DegradeRaisesLowRequest()
    ensures DegradeHeight(288, 1) == 396
  {
  }

  /** top is the highest rung within the request. */
  predicate TopRung(top: int, requested: int) {
    top in QUALITY_LADDER && top <= requested && forall v :: v in QUALITY_LADDER && v <= requested ==> v <= top
  }

  /** One failure costs one rung, and so does each further one, down to the lowest. */
  lemma DegradeStepsOneRung(requested: int, steps: int, top: int)
    requires TopRung(top, requested) && steps >= 1
    ensures DegradeHeight(requested, 1) in QUALITY_LADDER
    ensures DegradeHeight(requested, 1) < top || top == 396
    ensures forall v :: v in QUALITY_LADDER ==> !(DegradeHeight(requested, 1) < v < top)
    ensures DegradeHeight(requested, steps + 1) == DegradeHeight(DegradeHeight(requested, steps), 1)
  {
    assert forall v :: v in QUALITY_LADDER ==> v == 2160 || v == 1080 || v == 720 || v == 540 || v == 396;
    assert forall i :: 0 <= i < |QUALITY_LADDER| ==> QUALITY_LADDER[i] in QUALITY_LADDER;
    assert QUALITY_LADDER[RungOf(requested)] == top;
  }

  /** The tag of a degraded attempt names the height it asks for. */
  lemma DegradedTagIsItsHeight(dl: Download)
    requires AttemptQuality(dl).0 != QualityToHeight(dl.quality)
    ensures QualityToHeight(AttemptQuality(dl).1) == AttemptQuality(dl).0
  {
    var h := DegradeHeight(QualityToHeight(dl.quality), dl.cdnFailures);
    assert h in QUALITY_LADDER;
    LadderTags();
  }

  lemma LadderTags()
    ensures forall i :: 0 <= i < |QUALITY_LADDER| ==> QualityToHeight(HeightToQualityTag(QUALITY_LADDER[i])) == QUALITY_LADDER[i]
  {
    hide QualityToHeight;
    DecimalDigits(2160, "21", '6', '0', 21);
    DecimalDigits(1080, "10", '8', '0', 10);
    DecimalDigits(720, "7", '2', '0', 7);
    DecimalDigits(540, "5", '4', '0', 5);
    DecimalDigits(396, "3", '9', '6', 3);
    TagHeight("2160p", "2160", 2160);
    TagHeight("1080p", "1080", 1080);
    TagHeight("720p", "720", 720);
    TagHeight("540p", "540", 540);
    TagHeight("396p", "396", 396);
  }

  lemma DecimalDigits(n: nat, head: string, tens: char, units: char, hundreds: nat)
    requires hundreds == n / 100 && head == Decimal(hundreds) && hundreds > 0
    requires tens == (n / 10 % 10) as char + '0' && units == (n % 10) as char + '0'
    ensures Decimal(n) == head + [tens, units]
  {
    assert n / 10 / 10 == hundreds;
    assert Decimal(n / 10) == Decimal(hundreds) + [tens];
  }

  lemma TagHeight(tag: string, digits: string, h: nat)
    requires tag == digits + "p" && digits == Decimal(h)
    ensures QualityToHeight(tag) == h
  {
    hide Atoi, Decimal, Value;
    AtoiOfDigits(digits);
    ValueOfDecimal(h);
    LowerDigits(digits);
    assert Lower(tag) == Lower(digits) + "p";
    assert TrimSuffix(tag, "p") == digits;
  }

  lemma LowerDigits(digits: string)
    requires forall c :: c in digits ==> IsDigit(c)
    ensures Lower(digits) == digits
  {
    assert forall i :: 0 <= i < |digits| ==> digits[i] in digits;
  }

  // ---- the quality of the next attempt ----

  function Least(a: nat, b: nat): nat {
    if a < b then a else b
  }

  /**
   What the next attempt asks for, after any failures of a fresh row: as many
   rungs below the top one within its request as there were failures that cost
   quality, if the last failure was the download's own; else the request. A
   request below the ladder counts as one of its lowest rung.
   */
  lemma NextAttemptAsksFor(dl: Download, fs: seq<Failure>, rung: nat)
    requires Fresh(dl) && fs != [] && rung < |QUALITY_LADDER|
    requires TopRung(QUALITY_LADDER[rung], QualityToHeight(dl.quality))
             || (rung == |QUALITY_LADDER| - 1 && QualityToHeight(dl.quality) < QUALITY_LADDER[rung])
    ensures var n := CDNFailuresIn(fs);
            AttemptQuality(AfterFailures(dl, fs)).0 ==
              if n > 0 && fs[|fs| - 1].code in {FFmpeg, Truncated} then QUALITY_LADDER[Least(rung + n, |QUALITY_LADDER| - 1)]
              else QualityToHeight(dl.quality)
  {
    hide QualityToHeight, AfterFailures, CDNFailuresIn, HeightToQualityTag;
    CDNFailuresCounted(dl, fs);
    RungIs(QualityToHeight(dl.quality), rung);
  }

  lemma RungIs(height: int, rung: nat)
    requires rung < |QUALITY_LADDER|
    requires TopRung(QUALITY_LADDER[rung], height) || (rung == |QUALITY_LADDER| - 1 && height < QUALITY_LADDER[rung])
    ensures RungOf(height) == rung
  {
    assert forall i :: 0 <= i < |QUALITY_LADDER| ==> QUALITY_LADDER[i] in QUALITY_LADDER;
  }

  /** A fresh 1080p row whose downloads fail twice, and are retried, asks for 720 and then for 540. */
  lemma FullHDStepsDown(dl: Download, f: Failure, g: Failure)
    requires Fresh(dl) && QualityToHeight(dl.quality) == 1080 && IsCDNFailure(f) && IsCDNFailure(g)
    ensures AfterFailures(dl, [f]).retryable && AttemptQuality(AfterFailures(dl, [f])) == (720, "720p")
    ensures AfterFailures(dl, [f, g]).retryable && AttemptQuality(AfterFailures(dl, [f, g])) == (540, "540p")
  {
    hide QualityToHeight;
    var once, twice := [f], [f, g];
    assert QUALITY_LADDER[1] == 1080;
    assert TopRung(1080, 1080) by {
      assert forall v :: v in QUALITY_LADDER ==> v == 2160 || v == 1080 || v == 720 || v == 540 || v == 396;
    }
    assert once[..0] == [] && twice[..1] == once;
    assert CDNFailuresIn([]) == 0 && CDNFailuresIn(once) == 1 && CDNFailuresIn(twice) == 2;
    NextAttemptAsksFor(dl, once, 1);
    NextAttemptAsksFor(dl, twice, 1);
    TwoRetried(dl, f, g);
    CDNFailuresCounted(dl, once);
    CDNFailuresCounted(dl, twice);
  }

  lemma TwoRetried(dl: Download, f: Failure, g: Failure)
    requires Fresh(dl) && IsCDNFailure(f) && IsCDNFailure(g)
    ensures AfterFailures(dl, [f]).retryable && AfterFailures(dl, [f, g]).retryable
  {
    hide RetryDelay, AddFailedSupplier;
    assert [f][..0] == [] && [f, g][..1] == [f];
    assert AfterFailures(dl, [f]) == AfterFailure(dl, f);
    assert AfterFailures(dl, [f, g]) == AfterFailure(AfterFailure(dl, f), g);
  }

  // ---- picking a stream ----

  function Distance(s: VideoStream, target: int): int {
    if s.height < target then target - s.height else s.height - target
  }

  /** No stream is closer to the requested height. */
  predicate Nearest(streams: seq<VideoStream>, target: int, i: nat) {
    i < |streams| && forall j :: 0 <= j < |streams| ==> Distance(streams[i], target) <= Distance(streams[j], target)
  }

  /** A nearest stream whose supplier is not excluded, or any nearest one when all their suppliers are. */
  predicate Allowed(streams: seq<VideoStream>, target: int, excluded: seq<string>, i: nat) {
    && Nearest(streams, target, i)
    && (streams[i].supplier !in excluded
        || forall j :: 0 <= j < |streams| && Nearest(streams, target, j) ==> streams[j].supplier in excluded)
  }

  predicate IsHLS(s: VideoStream) {
    s.format == "hls"
  }

  /** The first HLS stream among the allowed ones, or the first of them when none is HLS. */
  predicate Picked(streams: seq<VideoStream>, target: int, excluded: seq<string>, i: nat) {
    && Allowed(streams, target, excluded, i)
    && (forall j :: 0 <= j < |streams| && Allowed(streams, target, excluded, j) ==>
          (IsHLS(streams[j]) ==> IsHLS(streams[i]))
          && (IsHLS(streams[j]) == IsHLS(streams[i]) ==> i <= j))
  }

  lemma PickIsUnique(streams: seq<VideoStream>, target: int, excluded: seq<string>, i: nat, j: nat)
    requires Picked(streams, target, excluded, i) && Picked(streams, target, excluded, j)
    ensures i == j
  {
  }

  /** d is how far a height is from the target, above or below. */
  predicate Apart(height: int, target: int, d: int) {
    d >= 0 && (height == target + d || height == target - d)
  }

  /**
   What the pick is: no stream's height is nearer the target; its supplier has
   not refused if one at the same distance has not; and it is HLS if one of
   those left is, the first of its kind.
   */
  lemma PickMeans(streams: seq<VideoStream>, target: int, excluded: seq<string>, i: nat, j: nat, d: int, e: int)
    requires Picked(streams, target, excluded, i) && j < |streams|
    requires Apart(streams[i].height, target, d) && Apart(streams[j].height, target, e)
    ensures d <= e
    ensures d == e && streams[j].supplier !in excluded ==> streams[i].supplier !in excluded
    ensures var left := d == e && (streams[j].supplier in excluded ==> streams[i].supplier in excluded);
            && (left && streams[j].format == "hls" ==> streams[i].format == "hls")
            && (left && (streams[j].format == "hls" <==> streams[i].format == "hls") ==> i <= j)
  {
    assert Nearest(streams, target, i);
    if d == e {
      assert Nearest(streams, target, j);
    }
  }

  /** The candidates of pickStream, and those whose supplier is not excluded, in order. */
  method Candidates(streams: seq<VideoStream>, target: int, excluded: seq<string>)
    returns (candidates: seq<nat>, allowed: seq<nat>)
    requires streams != []
    ensures candidates != []
    ensures forall i: nat :: i in candidates <==> Nearest(streams, target, i)
    ensures forall i: nat :: i in allowed <==> Nearest(streams, target, i) && streams[i].supplier !in excluded
    ensures forall a, b :: 0 <= a < b < |candidates| ==> candidates[a] < candidates[b]
    ensures forall a, b :: 0 <= a < b < |allowed| ==> allowed[a] < allowed[b]
  {
    var bestDiff := Distance(streams[0], target);
    ghost var best := 0;
    for i := 1 to |streams|
      invariant 0 <= best < i && bestDiff == Distance(streams[best], target)
      invariant forall j :: 0 <= j < i ==> bestDiff <= Distance(streams[j], target)
    {
      var diff := Distance(streams[i], target);
      if diff < bestDiff {
        bestDiff, best := diff, i;
      }
    }
    candidates, allowed := [], [];
    for i := 0 to |streams|
      invariant forall j: nat :: j in candidates <==> j < i && Nearest(streams, target, j)
      invariant forall j: nat :: j in allowed <==> j < i && Nearest(streams, target, j) && streams[j].supplier !in excluded
      invariant forall a, b :: 0 <= a < b < |candidates| ==> candidates[a] < candidates[b]
      invariant forall a, b :: 0 <= a < b < |allowed| ==> allowed[a] < allowed[b]
    {
      assert Nearest(streams, target, i) <==> Distance(streams[i], target) == bestDiff;
      assert forall a :: 0 <= a < |candidates| ==> candidates[a] in candidates;
      assert forall a :: 0 <= a < |allowed| ==> allowed[a] in allowed;
      if Distance(streams[i], target) == bestDiff {
        candidates := candidates + [i];
        if streams[i].supplier !in excluded {
          allowed := allowed + [i];
        }
      }
    }
    assert best in candidates;
  }

  method PickStream(streams: seq<VideoStream>, quality: string, excluded: seq<string>) returns (s: VideoStream)
    ensures streams == [] ==> s == NO_STREAM
    ensures streams != [] ==>
              exists i :: 0 <= i < |streams| && Picked(streams, QualityToHeight(quality), excluded, i) && s == streams[i]
  {
    hide Nearest, QualityToHeight, Allowed, Picked, IsHLS;
    if streams == [] {
      return NO_STREAM;
    }
    var target := QualityToHeight(quality);
    var candidates, allowed := Candidates(streams, target, excluded);
    var left := if allowed == [] then candidates else allowed;
    AllowedIs(streams, target, excluded, candidates, allowed);
    var k := FirstHLS(streams, left);
    FirstOfItsKind(streams, target, excluded, left, k);
    return streams[left[k]];
  }

  /** The first HLS stream of a list of them, else the first. */
  method FirstHLS(streams: seq<VideoStream>, left: seq<nat>) returns (k: nat)
    requires left != [] && forall j :: 0 <= j < |left| ==> left[j] < |streams|
    ensures k < |left| && forall j :: 0 <= j < k ==> !IsHLS(streams[left[j]])
    ensures IsHLS(streams[left[k]]) || (k == 0 && forall j :: 0 <= j < |left| ==> !IsHLS(streams[left[j]]))
  {
    for i := 0 to |left|
      invariant forall j :: 0 <= j < i ==> !IsHLS(streams[left[j]])
    {
      if IsHLS(streams[left[i]]) {
        return i;
      }
    }
    return 0;
  }

  lemma AllowedIs(streams: seq<VideoStream>, target: int, excluded: seq<string>, candidates: seq<nat>, allowed: seq<nat>)
    requires forall i: nat :: i in candidates <==> Nearest(streams, target, i)
    requires forall i: nat :: i in allowed <==> Nearest(streams, target, i) && streams[i].supplier !in excluded
    ensures var left := if allowed == [] then candidates else allowed;
            && (forall i: nat :: i in left <==> Allowed(streams, target, excluded, i))
            && (forall k :: 0 <= k < |left| ==> left[k] < |streams|)
  {
    var left := if allowed == [] then candidates else allowed;
    forall k | 0 <= k < |left|
      ensures left[k] < |streams|
    {
      assert left[k] in left;
    }
    if allowed != [] {
      assert allowed[0] in allowed;
    }
  }

  lemma FirstOfItsKind(streams: seq<VideoStream>, target: int, excluded: seq<string>, left: seq<nat>, k: nat)
    requires k < |left|
    requires forall i: nat :: i in left <==> Allowed(streams, target, excluded, i)
    requires forall a, b :: 0 <= a < b < |left| ==> left[a] < left[b]
    requires left[k] < |streams| && forall j :: 0 <= j < |left| ==> left[j] < |streams|
    requires forall j :: 0 <= j < k ==> !IsHLS(streams[left[j]])
    requires IsHLS(streams[left[k]]) || (k == 0 && forall j :: 0 <= j < |left| ==> !IsHLS(streams[left[j]]))
    ensures Picked(streams, target, excluded, left[k])
  {
    hide Allowed;
    assert left[k] in left;
    forall j | 0 <= j < |streams| && Allowed(streams, target, excluded, j)
      ensures (IsHLS(streams[j]) ==> IsHLS(streams[left[k]])) && (IsHLS(streams[j]) == IsHLS(streams[left[k]]) ==> left[k] <= j)
    {
      assert j in left;
      var a :| 0 <= a < |left| && left[a] == j;
    }
  }

  // ---- runs of refusals ----

  /** The index pickStream chooses. */
  ghost function PickIndex(streams: seq<VideoStream>, target: int, excluded: seq<string>): (i: nat)
    requires streams != []
    ensures Picked(streams, target, excluded, i)
  {
    PickExists(streams, target, excluded);
    var i :| 0 <= i < |streams| && Picked(streams, target, excluded, i);
    i
  }

  lemma PickExists(streams: seq<VideoStream>, target: int, excluded: seq<string>)
    requires streams != []
    ensures exists i :: 0 <= i < |streams| && Picked(streams, target, excluded, i)
  {
    var n := NearestExists(streams, target, |streams|);
    var a := n;
    if forall j :: 0 <= j < |streams| && Nearest(streams, target, j) ==> streams[j].supplier in excluded {
      a := n;
    } else {
      a :| 0 <= a < |streams| && Nearest(streams, target, a) && streams[a].supplier !in excluded;
    }
    if h :| 0 <= h < |streams| && Allowed(streams, target, excluded, h) && IsHLS(streams[h]) {
      a := h;
    }
    var i := LeastOfKind(streams, target, excluded, a);
  }

  lemma NearestExists(streams: seq<VideoStream>, target: int, n: nat) returns (i: nat)
    requires 0 < n <= |streams|
    ensures i < n && forall j :: 0 <= j < n ==> Distance(streams[i], target) <= Distance(streams[j], target)
  {
    i := 0;
    if n > 1 {
      i := NearestExists(streams, target, n - 1);
      if Distance(streams[n - 1], target) < Distance(streams[i], target) {
        i := n - 1;
      }
    }
  }

  lemma LeastOfKind(streams: seq<VideoStream>, target: int, excluded: seq<string>, a: nat) returns (i: nat)
    requires Allowed(streams, target, excluded, a)
    requires IsHLS(streams[a]) || forall h :: 0 <= h < |streams| && Allowed(streams, target, excluded, h) ==> !IsHLS(streams[h])
    ensures Picked(streams, target, excluded, i)
    decreases a
  {
    if j :| 0 <= j < a && Allowed(streams, target, excluded, j) && IsHLS(streams[j]) == IsHLS(streams[a]) {
      i := LeastOfKind(streams, target, excluded, j);
    } else {
      i := a;
    }
  }

  ghost function PickFor(streams: seq<VideoStream>, dl: Download): VideoStream
    requires streams != []
  {
    streams[PickIndex(streams, QualityToHeight(AttemptQuality(dl).1), dl.failedSuppliers)]
  }

  /** A row after its first k attempts were each refused by the supplier picked, over the same list of streams. */
  ghost function AfterRefusals(streams: seq<VideoStream>, dl: Download, k: nat): Download
    requires streams != []
  {
    if k == 0 then dl
    else
      var d := AfterRefusals(streams, dl, k - 1);
      AfterFailure(d, Failure(FFmpeg, Some(PickFor(streams, d).supplier), false, 0))
  }

  /** The suppliers of the streams nearest the requested height. */
  ghost function NearestSuppliers(streams: seq<VideoStream>, target: int): set<string> {
    set i | 0 <= i < |streams| && Nearest(streams, target, i) :: streams[i].supplier
  }

  ghost predicate Distinct(s: seq<string>) {
    forall i, j :: 0 <= i < j < |s| ==> s[i] != s[j]
  }

  /** What a refusal changes that the next pick depends on. */
  lemma RefusalRecorded(d: Download, supplier: string)
    ensures var e := AfterFailure(d, Failure(FFmpeg, Some(supplier), false, 0));
            && e.failedSuppliers == AddFailedSupplier(d.failedSuppliers, supplier)
            && e.cdnFailures == d.cdnFailures && e.quality == d.quality
  {
    hide RetryDelay;
  }

  /** While a nearest supplier has not refused, the pick is one of those. */
  lemma PickAvoidsRefused(streams: seq<VideoStream>, target: int, excluded: seq<string>)
    requires streams != []
    requires exists s :: s in NearestSuppliers(streams, target) && s !in excluded
    ensures var s := streams[PickIndex(streams, target, excluded)].supplier;
            s in NearestSuppliers(streams, target) && s !in excluded
  {
    var s :| s in NearestSuppliers(streams, target) && s !in excluded;
    var j :| 0 <= j < |streams| && Nearest(streams, target, j) && streams[j].supplier == s;
    var i := PickIndex(streams, target, excluded);
    assert Allowed(streams, target, excluded, i);
  }

  lemma UntriedExists(suppliers: set<string>, tried: seq<string>)
    requires |tried| < |suppliers|
    ensures exists s :: s in suppliers && s !in tried
  {
    if forall s :: s in suppliers ==> s in tried {
      var all := set s | s in tried;
      assert suppliers <= all;
      SubsetSize(suppliers, all);
      SeqSetSize(tried);
    }
  }

  lemma {:induction false} SeqSetSize(s: seq<string>)
    ensures |set x | x in s| <= |s|
  {
    if s != [] {
      var init := s[..|s| - 1];
      SeqSetSize(init);
      assert s == init + [s[|s| - 1]];
      assert (set x | x in s) == (set x | x in init) + {s[|s| - 1]};
    }
  }

  /**
   Refusals change supplier, never height. Starting from a row that no
   supplier has refused, over a list whose nearest streams all name their
   supplier, each refusal up to the number of those suppliers rules out a new
   one, and the attempt keeps asking for the requested quality.
   */
  lemma {:induction false} RefusalsRuleOutSuppliers(streams: seq<VideoStream>, dl: Download, k: nat)
    requires streams != [] && dl.failedSuppliers == [] && dl.cdnFailures == 0
    requires "" !in NearestSuppliers(streams, QualityToHeight(dl.quality))
    requires k <= |NearestSuppliers(streams, QualityToHeight(dl.quality))|
    ensures var d := AfterRefusals(streams, dl, k);
            && d.cdnFailures == 0 && d.quality == dl.quality
            && AttemptQuality(d) == (QualityToHeight(dl.quality), dl.quality)
            && |d.failedSuppliers| == k && Distinct(d.failedSuppliers)
            && (forall s :: s in d.failedSuppliers ==> s in NearestSuppliers(streams, QualityToHeight(dl.quality)))
  {
    hide QualityToHeight, PickIndex, AfterFailure, NearestSuppliers, AddFailedSupplier, PickFor;
    if k > 0 {
      RefusalsRuleOutSuppliers(streams, dl, k - 1);
      var d := AfterRefusals(streams, dl, k - 1);
      var s := PickFor(streams, d).supplier;
      NextIsUntried(streams, d, QualityToHeight(dl.quality));
      RefusalRecorded(d, s);
      UntriedIsAdded(d.failedSuppliers, s);
    }
  }

  lemma NextIsUntried(streams: seq<VideoStream>, d: Download, target: int)
    requires streams != [] && AttemptQuality(d).0 == target == QualityToHeight(AttemptQuality(d).1)
    requires |d.failedSuppliers| < |NearestSuppliers(streams, target)| && "" !in NearestSuppliers(streams, target)
    ensures var s := PickFor(streams, d).supplier;
            s != "" && s !in d.failedSuppliers && s in NearestSuppliers(streams, target)
  {
    hide QualityToHeight, PickIndex, NearestSuppliers, AttemptQuality;
    UntriedExists(NearestSuppliers(streams, target), d.failedSuppliers);
    PickAvoidsRefused(streams, target, d.failedSuppliers);
  }

  lemma UntriedIsAdded(tried: seq<string>, s: string)
    requires s != "" && s !in tried && Distinct(tried)
    ensures AddFailedSupplier(tried, s) == tried + [s] && Distinct(tried + [s])
  {
    assert forall i :: 0 <= i < |tried| ==> tried[i] in tried;
  }

  // ---- within the retry budget ----

  /** The row's first refusals, up to the k-th, all leave it to be tried again. */
  ghost predicate Attempts(streams: seq<VideoStream>, dl: Download, k: nat)
    requires streams != []
  {
    forall i :: 1 <= i <= k ==> AfterRefusals(streams, dl, i).retryable
  }

  /** The suppliers a row's attempts use, from the first to the one after its k-th refusal. */
  ghost function SuppliersUsed(streams: seq<VideoStream>, dl: Download, k: nat): set<string>
    requires streams != []
  {
    set i | 0 <= i <= k :: PickFor(streams, AfterRefusals(streams, dl, i)).supplier
  }

  lemma {:induction false} RefusalsCounted(streams: seq<VideoStream>, dl: Download, k: nat)
    requires streams != [] && dl.retryCount == 0 && dl.cdnFailures == 0
    ensures var d := AfterRefusals(streams, dl, k);
            && d.retryCount == k && d.cdnFailures == 0 && d.quality == dl.quality
            && (k > 0 ==> (d.retryable <==> k < MAX_RETRIES))
  {
    hide RetryDelay, PickFor, AddFailedSupplier;
    if k > 0 {
      RefusalsCounted(streams, dl, k - 1);
    }
  }

  /** A pick is a nearest stream even when every nearest supplier has refused. */
  lemma PickIsNearest(streams: seq<VideoStream>, dl: Download, k: nat)
    requires streams != [] && dl.retryCount == 0 && dl.cdnFailures == 0
    ensures PickFor(streams, AfterRefusals(streams, dl, k)).supplier in NearestSuppliers(streams, QualityToHeight(dl.quality))
  {
    hide QualityToHeight, AfterRefusals;
    RefusalsCounted(streams, dl, k);
    var d := AfterRefusals(streams, dl, k);
    assert AttemptQuality(d).1 == dl.quality;
    assert Allowed(streams, QualityToHeight(dl.quality), d.failedSuppliers,
                   PickIndex(streams, QualityToHeight(dl.quality), d.failedSuppliers));
  }

  lemma {:induction false} SuppliersUsedCount(streams: seq<VideoStream>, dl: Download, k: nat)
    requires streams != [] && dl.failedSuppliers == [] && dl.cdnFailures == 0
    requires "" !in NearestSuppliers(streams, QualityToHeight(dl.quality))
    requires k < |NearestSuppliers(streams, QualityToHeight(dl.quality))|
    ensures |SuppliersUsed(streams, dl, k)| == k + 1
  {
    hide QualityToHeight, AfterRefusals, PickFor, NearestSuppliers;
    var next := PickFor(streams, AfterRefusals(streams, dl, k)).supplier;
    if k == 0 {
      assert SuppliersUsed(streams, dl, 0) == {next};
    } else {
      SuppliersUsedCount(streams, dl, k - 1);
      forall i | 0 <= i < k
        ensures PickFor(streams, AfterRefusals(streams, dl, i)).supplier != next
      {
        PicksAreDistinct(streams, dl, i, k);
      }
      assert SuppliersUsed(streams, dl, k) == SuppliersUsed(streams, dl, k - 1) + {next};
    }
  }

  /**
   What the retry budget leaves of that: a fresh row whose attempts are all
   refused is attempted three times, and so tries three of its nearest
   suppliers, or all when there are no more than three.
   */
  lemma FreshRowTriesThreeSuppliers(streams: seq<VideoStream>, dl: Download, k: nat)
    requires streams != [] && Fresh(dl)
    requires "" !in NearestSuppliers(streams, QualityToHeight(dl.quality))
    ensures Attempts(streams, dl, k) <==> k <= 2
    ensures var n, used := |NearestSuppliers(streams, QualityToHeight(dl.quality))|, SuppliersUsed(streams, dl, 2);
            && |used| == (if n < 3 then n else 3)
            && used <= NearestSuppliers(streams, QualityToHeight(dl.quality))
            && (used == NearestSuppliers(streams, QualityToHeight(dl.quality)) <==> n <= 3)
  {
    hide QualityToHeight, AfterRefusals, PickFor, NearestSuppliers;
    forall i: nat
      ensures i > 0 ==> (AfterRefusals(streams, dl, i).retryable <==> i < MAX_RETRIES)
    {
      RefusalsCounted(streams, dl, i);
    }
    assert k >= 3 ==> !AfterRefusals(streams, dl, 3).retryable;
    SuppliersTried(streams, dl, NearestSuppliers(streams, QualityToHeight(dl.quality)), SuppliersUsed(streams, dl, 2));
  }

  lemma SuppliersTried(streams: seq<VideoStream>, dl: Download, all: set<string>, used: set<string>)
    requires streams != [] && Fresh(dl) && "" !in all
    requires all == NearestSuppliers(streams, QualityToHeight(dl.quality)) && used == SuppliersUsed(streams, dl, 2)
    ensures |used| == (if |all| < 3 then |all| else 3) && used <= all && (used == all <==> |all| <= 3)
  {
    hide QualityToHeight, AfterRefusals, PickFor, NearestSuppliers;
    forall i: nat
      ensures PickFor(streams, AfterRefusals(streams, dl, i)).supplier in all
    {
      PickIsNearest(streams, dl, i);
    }
    var n := |all|;
    assert n > 0 by { PickIsNearest(streams, dl, 0); }
    var k := if n < 3 then n - 1 else 2;
    SuppliersUsedCount(streams, dl, k);
    var some := SuppliersUsed(streams, dl, k);
    assert some <= used <= all;
    SubsetSize(some, used);
    SubsetSize(used, all);
    SameWhenAsMany(some, used);
    SameWhenAsMany(used, all);
    if n >= 3 {
      assert some == used;
    }
  }

  lemma SameWhenAsMany(a: set<string>, b: set<string>)
    requires a <= b
    ensures |a| == |b| <==> a == b
  {
    assert b == a + (b - a);
    if a != b {
      var x :| x in b - a;
    }
  }

  /** Two attempts before every nearest supplier has refused never use the same supplier. */
  lemma PicksAreDistinct(streams: seq<VideoStream>, dl: Download, i: nat, j: nat)
    requires streams != [] && dl.failedSuppliers == [] && dl.cdnFailures == 0
    requires "" !in NearestSuppliers(streams, QualityToHeight(dl.quality))
    requires i < j < |NearestSuppliers(streams, QualityToHeight(dl.quality))|
    ensures PickFor(streams, AfterRefusals(streams, dl, i)).supplier != PickFor(streams, AfterRefusals(streams, dl, j)).supplier
  {
    hide QualityToHeight, PickIndex, RetryDelay, NearestSuppliers;
    RefusalsRuleOutSuppliers(streams, dl, j);
    var e := AfterRefusals(streams, dl, j);
    UntriedExists(NearestSuppliers(streams, QualityToHeight(dl.quality)), e.failedSuppliers);
    PickAvoidsRefused(streams, QualityToHeight(dl.quality), e.failedSuppliers);
    RefusedStaysRefused(streams, dl, i, j);
  }

  lemma {:induction false} RefusedStaysRefused(streams: seq<VideoStream>, dl: Download, i: nat, j: nat)
    requires streams != [] && dl.failedSuppliers == [] && dl.cdnFailures == 0
    requires "" !in NearestSuppliers(streams, QualityToHeight(dl.quality))
    requires i < j <= |NearestSuppliers(streams, QualityToHeight(dl.quality))|
    ensures PickFor(streams, AfterRefusals(streams, dl, i)).supplier in AfterRefusals(streams, dl, j).failedSuppliers
    decreases j
  {
    hide QualityToHeight, PickIndex, AfterFailure, NearestSuppliers, AttemptQuality, PickFor;
    var e := AfterRefusals(streams, dl, j - 1);
    RefusalRecorded(e, PickFor(streams, e).supplier);
    if i + 1 < j {
      RefusedStaysRefused(streams, dl, i, j - 1);
    } else {
      NamedPick(streams, dl, i);
    }
  }

  lemma NamedPick(streams: seq<VideoStream>, dl: Download, i: nat)
    requires streams != [] && dl.failedSuppliers == [] && dl.cdnFailures == 0
    requires "" !in NearestSuppliers(streams, QualityToHeight(dl.quality))
    requires i < |NearestSuppliers(streams, QualityToHeight(dl.quality))|
    ensures PickFor(streams, AfterRefusals(streams, dl, i)).supplier in NearestSuppliers(streams, QualityToHeight(dl.quality))
    ensures PickFor(streams, AfterRefusals(streams, dl, i)).supplier !in AfterRefusals(streams, dl, i).failedSuppliers
  {
    hide QualityToHeight, PickIndex, AfterRefusals, NearestSuppliers;
    RefusalsRuleOutSuppliers(streams, dl, i);
    var d := AfterRefusals(streams, dl, i);
    UntriedExists(NearestSuppliers(streams, QualityToHeight(dl.quality)), d.failedSuppliers);
    PickAvoidsRefused(streams, QualityToHeight(dl.quality), d.failedSuppliers);
  }
}
