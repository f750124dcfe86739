/** `process_track` of filter_gpx_points.py: every segment of a track is
    reduced, greedily and in one pass, to points at least `spacing` apart. */
module FilterGpxPoints {
  import opened Results
  import opened Gpx
  import opened Collections

  /** `DEFAULT_DISTANCE`. */
  const DefaultDistance: real := 0.08

  /** `LatLon.distance`: a geodesic routine outside the model, taken as given. */
  type Distance = (LatLon, LatLon) -> real

  /** `str.format` of the spacing in the new track name. */
  type Format = real -> string

  /** `spacing if spacing else DEFAULT_DISTANCE`: None and 0.0 are both falsy,
      so a spacing of 0 falls back to the default. */
  function EffectiveSpacing(spacing: Option<real>): (s: real)
    ensures s != 0.0
    ensures spacing == None || spacing == Some(0.0) ==> s == DefaultDistance
    ensures spacing.Some? && spacing.value != 0.0 ==> s == spacing.value
  {
    if spacing.Some? && spacing.value != 0.0 then spacing.value else DefaultDistance
  }

  /** The indices from `i` on that the loop keeps, when `last` is the position
      of the most recently kept point. */
  function Scan(seg: Segment, last: LatLon, i: nat, spacing: real, dist: Distance): (idx: seq<nat>)
    requires i <= |seg|
    ensures |idx| <= |seg| - i
    ensures forall k :: 0 <= k < |idx| ==> i <= idx[k] < |seg|
    ensures forall k :: 0 < k < |idx| ==> idx[k - 1] < idx[k]
    decreases |seg| - i
  {
    if i == |seg| then []
    else if dist(last, Coordinates(seg[i])) >= spacing then
      [i] + Scan(seg, Coordinates(seg[i]), i + 1, spacing, dist)
    else Scan(seg, last, i + 1, spacing, dist)
  }

  /** The indices the loop keeps: the first point, then whatever the scan keeps. */
  function KeptIndices(seg: Segment, spacing: real, dist: Distance): (idx: seq<nat>)
    ensures |idx| <= |seg|
    ensures forall k :: 0 <= k < |idx| ==> idx[k] < |seg|
    ensures forall k :: 0 < k < |idx| ==> idx[k - 1] < idx[k]
  {
    if seg == [] then [] else [0] + Scan(seg, Coordinates(seg[0]), 1, spacing, dist)
  }

  /** The points of `seg` at the given indices: the very point values, unchanged. */
  function Select(seg: Segment, idx: seq<nat>): Segment
    requires forall k :: 0 <= k < |idx| ==> idx[k] < |seg|
  {
    seq(|idx|, k requires 0 <= k < |idx| => seg[idx[k]])
  }

  /** A sequence holding the points at `idx`, one for one, is their selection. */
  lemma SelectOf(seg: Segment, idx: seq<nat>, kept: Segment)
    requires forall k :: 0 <= k < |idx| ==> idx[k] < |seg|
    requires |kept| == |idx| && forall k :: 0 <= k < |idx| ==> kept[k] == seg[idx[k]]
    ensures kept == Select(seg, idx)
  {
  }

  /** The new segment the loop builds from one input segment. */
  function Decimate(seg: Segment, spacing: real, dist: Distance): (kept: Segment)
    ensures |kept| <= |seg|
    ensures kept == [] <==> seg == []
    ensures seg != [] ==> kept[0] == seg[0]
  {
    Select(seg, KeptIndices(seg, spacing, dist))
  }

  ghost predicate InBounds(seg: Segment, idx: seq<nat>) {
    forall k :: 0 <= k < |idx| ==> idx[k] < |seg|
  }

  /** Each kept point is at least `spacing` from the kept point before it. */
  ghost predicate KeptApart(seg: Segment, idx: seq<nat>, spacing: real, dist: Distance) {
    && InBounds(seg, idx)
    && forall k :: 0 < k < |idx| ==>
         dist(Coordinates(seg[idx[k - 1]]), Coordinates(seg[idx[k]])) >= spacing
  }

  /** Where the gap after kept point `k` ends: the next kept index, or the
      end of the segment after the last one. */
  function GapEnd(seg: Segment, idx: seq<nat>, k: nat): nat
    requires k < |idx|
  {
    if k + 1 < |idx| then idx[k + 1] else |seg|
  }

  /** Each point skipped after kept point `k` (and before the next kept one)
      is closer than `spacing` to it. */
  ghost predicate DroppedNear(seg: Segment, idx: seq<nat>, spacing: real, dist: Distance) {
    && InBounds(seg, idx)
    && forall k, j {:trigger dist(Coordinates(seg[idx[k]]), Coordinates(seg[j]))} ::
         0 <= k < |idx| && idx[k] < j < GapEnd(seg, idx, k) && j < |seg| ==>
         dist(Coordinates(seg[idx[k]]), Coordinates(seg[j])) < spacing
  }

  /** `idx` picks a greedy decimation of `seg`: increasing indices starting at
      the first point, each kept point at least `spacing` from the previous
      kept one, and every skipped point closer than `spacing` to the kept
      point before it. */
  ghost predicate IsGreedySelection(seg: Segment, idx: seq<nat>, spacing: real, dist: Distance) {
    && InBounds(seg, idx)
    && (forall k :: 0 < k < |idx| ==> idx[k - 1] < idx[k])
    && (|idx| == 0 <==> |seg| == 0)
    && (|idx| > 0 ==> idx[0] == 0)
    && KeptApart(seg, idx, spacing, dist)
    && DroppedNear(seg, idx, spacing, dist)
  }

  /** Every point from `i` up to the first index of `idx` is closer than
      `spacing` to `last`. */
  ghost predicate NearUntilFirst(seg: Segment, last: LatLon, i: nat, idx: seq<nat>, spacing: real, dist: Distance) {
    forall j :: i <= j < |seg| && (idx != [] ==> j < idx[0]) ==> dist(last, Coordinates(seg[j])) < spacing
  }

  ghost predicate FirstFar(seg: Segment, last: LatLon, idx: seq<nat>, spacing: real, dist: Distance) {
    idx != [] && idx[0] < |seg| ==> dist(last, Coordinates(seg[idx[0]])) >= spacing
  }

  /** Keeping point `i` in front of what the scan after it keeps preserves the
      greedy conditions. */
  lemma KeepInFront(seg: Segment, i: nat, rest: seq<nat>, spacing: real, dist: Distance)
    requires i < |seg|
    requires forall k :: 0 <= k < |rest| ==> i < rest[k]
    requires NearUntilFirst(seg, Coordinates(seg[i]), i + 1, rest, spacing, dist)
    requires FirstFar(seg, Coordinates(seg[i]), rest, spacing, dist)
    requires KeptApart(seg, rest, spacing, dist) && DroppedNear(seg, rest, spacing, dist)
    ensures KeptApart(seg, [i] + rest, spacing, dist) && DroppedNear(seg, [i] + rest, spacing, dist)
  {
    KeepInFrontApart(seg, i, rest, spacing, dist);
    KeepInFrontNear(seg, i, rest, spacing, dist);
  }

  lemma KeepInFrontApart(seg: Segment, i: nat, rest: seq<nat>, spacing: real, dist: Distance)
    requires i < |seg|
    requires FirstFar(seg, Coordinates(seg[i]), rest, spacing, dist)
    requires KeptApart(seg, rest, spacing, dist)
    ensures KeptApart(seg, [i] + rest, spacing, dist)
  {
    var idx := [i] + rest;
    assert forall k :: 0 < k < |idx| ==> idx[k] == rest[k - 1];
    forall k | 1 < k < |idx|
      ensures dist(Coordinates(seg[idx[k - 1]]), Coordinates(seg[idx[k]])) >= spacing
    {
      assert idx[k - 1] == rest[k - 2];
    }
  }

  lemma KeepInFrontNear(seg: Segment, i: nat, rest: seq<nat>, spacing: real, dist: Distance)
    requires i < |seg|
    requires InBounds(seg, rest)
    requires NearUntilFirst(seg, Coordinates(seg[i]), i + 1, rest, spacing, dist)
    requires DroppedNear(seg, rest, spacing, dist)
    ensures DroppedNear(seg, [i] + rest, spacing, dist)
  {
    var idx := [i] + rest;
    assert forall k :: 0 < k < |idx| ==> idx[k] == rest[k - 1];
    forall k, j | 0 <= k < |idx| && idx[k] < j < GapEnd(seg, idx, k) && j < |seg|
      ensures dist(Coordinates(seg[idx[k]]), Coordinates(seg[j])) < spacing
    {
      if k > 0 {
        assert idx[k] == rest[k - 1];
        assert GapEnd(seg, idx, k) == GapEnd(seg, rest, k - 1);
      }
    }
  }

  lemma {:induction false} ScanGreedy(seg: Segment, last: LatLon, i: nat, spacing: real, dist: Distance)
    requires i <= |seg|
    ensures var idx := Scan(seg, last, i, spacing, dist);
      && NearUntilFirst(seg, last, i, idx, spacing, dist)
      && FirstFar(seg, last, idx, spacing, dist)
      && KeptApart(seg, idx, spacing, dist)
      && DroppedNear(seg, idx, spacing, dist)
    decreases |seg| - i
  {
    if i < |seg| {
      var p := Coordinates(seg[i]);
      if dist(last, p) >= spacing {
        ScanGreedy(seg, p, i + 1, spacing, dist);
        KeepInFront(seg, i, Scan(seg, p, i + 1, spacing, dist), spacing, dist);
      } else {
        ScanGreedy(seg, last, i + 1, spacing, dist);
      }
    }
  }

  lemma KeptIndicesAreGreedy(seg: Segment, spacing: real, dist: Distance)
    ensures IsGreedySelection(seg, KeptIndices(seg, spacing, dist), spacing, dist)
  {
    if seg != [] {
      var first := Coordinates(seg[0]);
      ScanGreedy(seg, first, 1, spacing, dist);
      KeepInFront(seg, 0, Scan(seg, first, 1, spacing, dist), spacing, dist);
    }
  }

  /** The decimated segment is a greedy selection of the input: a subsequence
      in the original order, of the original points, starting with the first,
      spaced at least `spacing` apart, and dropping only points closer than
      `spacing` to the last kept one. */
  lemma DecimateIsGreedy(seg: Segment, spacing: real, dist: Distance)
    ensures exists idx :: IsGreedySelection(seg, idx, spacing, dist) && Decimate(seg, spacing, dist) == Select(seg, idx)
  {
    KeptIndicesAreGreedy(seg, spacing, dist);
  }

  /** Inside the gap after kept point `k` the scan skips every point: from
      any point of the gap it reaches the end of the gap unchanged. */
  lemma {:induction false} SkipNear(seg: Segment, idx: seq<nat>, k: nat, j: nat, spacing: real, dist: Distance)
    requires InBounds(seg, idx) && DroppedNear(seg, idx, spacing, dist)
    requires k < |idx| && idx[k] < j <= GapEnd(seg, idx, k) <= |seg|
    ensures Scan(seg, Coordinates(seg[idx[k]]), j, spacing, dist)
         == Scan(seg, Coordinates(seg[idx[k]]), GapEnd(seg, idx, k), spacing, dist)
    decreases GapEnd(seg, idx, k) - j
  {
    if j < GapEnd(seg, idx, k) {
      var last := Coordinates(seg[idx[k]]);
      assert dist(last, Coordinates(seg[j])) < spacing;
      assert Scan(seg, last, j, spacing, dist) == Scan(seg, last, j + 1, spacing, dist);
      SkipNear(seg, idx, k, j + 1, spacing, dist);
    }
  }

  /** After kept point `k`, a greedy selection is what the scan produces. */
  lemma {:induction false} GreedyFollowsScan(seg: Segment, idx: seq<nat>, k: nat, spacing: real, dist: Distance)
    requires IsGreedySelection(seg, idx, spacing, dist)
    requires k < |idx|
    ensures Scan(seg, Coordinates(seg[idx[k]]), idx[k] + 1, spacing, dist) == idx[k + 1..]
    decreases |idx| - k
  {
    assert k + 1 < |idx| ==> idx[k] < idx[k + 1] < |seg|;
    SkipNear(seg, idx, k, idx[k] + 1, spacing, dist);
    if k + 1 < |idx| {
      KeptApartAt(seg, idx, k, spacing, dist);
      GreedyFollowsScan(seg, idx, k + 1, spacing, dist);
      ScanKeeps(seg, Coordinates(seg[idx[k]]), idx[k + 1], idx[k + 2..], spacing, dist);
      HeadAndTail(idx, k + 1);
    }
  }

  /** A point far enough from the reference is kept, and the scan goes on
      from it. */
  lemma ScanKeeps(seg: Segment, last: LatLon, j: nat, rest: seq<nat>, spacing: real, dist: Distance)
    requires j < |seg| && dist(last, Coordinates(seg[j])) >= spacing
    requires Scan(seg, Coordinates(seg[j]), j + 1, spacing, dist) == rest
    ensures Scan(seg, last, j, spacing, dist) == [j] + rest
  {
  }

  lemma KeptApartAt(seg: Segment, idx: seq<nat>, k: nat, spacing: real, dist: Distance)
    requires IsGreedySelection(seg, idx, spacing, dist)
    requires k + 1 < |idx|
    ensures dist(Coordinates(seg[idx[k]]), Coordinates(seg[idx[k + 1]])) >= spacing
  {
    assert KeptApart(seg, idx, spacing, dist);
  }

  /** Only the greedy selection is greedy: any index sequence meeting the
      greedy conditions is the one the loop keeps. */
  lemma GreedySelectionIsKept(seg: Segment, idx: seq<nat>, spacing: real, dist: Distance)
    requires IsGreedySelection(seg, idx, spacing, dist)
    ensures idx == KeptIndices(seg, spacing, dist)
  {
    if seg != [] {
      GreedyFollowsScan(seg, idx, 0, spacing, dist);
      assert idx == [idx[0]] + idx[1..];
    }
  }

  ghost predicate WellSpaced(seg: Segment, spacing: real, dist: Distance) {
    forall k :: 0 < k < |seg| ==> dist(Coordinates(seg[k - 1]), Coordinates(seg[k])) >= spacing
  }

  /** A segment whose neighbours are all at least `spacing` apart passes
      through unchanged. */
  lemma WellSpacedIsFixed(seg: Segment, spacing: real, dist: Distance)
    requires WellSpaced(seg, spacing, dist)
    ensures Decimate(seg, spacing, dist) == seg
  {
    var all: seq<nat> := seq(|seg|, k requires 0 <= k < |seg| => k);
    assert IsGreedySelection(seg, all, spacing, dist);
    GreedySelectionIsKept(seg, all, spacing, dist);
  }

  lemma DecimateIsWellSpaced(seg: Segment, spacing: real, dist: Distance)
    ensures WellSpaced(Decimate(seg, spacing, dist), spacing, dist)
  {
    KeptIndicesAreGreedy(seg, spacing, dist);
  }

  /** Decimating a decimated segment again with the same spacing changes nothing. */
  lemma DecimateIdempotent(seg: Segment, spacing: real, dist: Distance)
    ensures Decimate(Decimate(seg, spacing, dist), spacing, dist) == Decimate(seg, spacing, dist)
  {
    DecimateIsWellSpaced(seg, spacing, dist);
    WellSpacedIsFixed(Decimate(seg, spacing, dist), spacing, dist);
  }

  /** With a non-positive spacing and a non-negative distance every point is kept
      (only a negative spacing gets here, since 0 means the default). */
  lemma NonPositiveSpacingKeepsAll(seg: Segment, spacing: real, dist: Distance)
    requires spacing <= 0.0
    requires forall a, b :: dist(a, b) >= 0.0
    ensures Decimate(seg, spacing, dist) == seg
  {
    WellSpacedIsFixed(seg, spacing, dist);
  }

  /** `track.name + " (filtered to {})".format(spacing)`. */
  function FilteredName(name: string, spacing: real, show: Format): (r: string)
    ensures |r| >= |name| + 15 && r[..|name|] == name
    ensures r[|name|..|name| + 14] == " (filtered to " && r[|r| - 1] == ')'
  {
    name + " (filtered to " + show(spacing) + ")"
  }

  /** `process_track(track, spacing)`: None for no track; a TypeError for a
      nameless one (None + str); otherwise a new track with one decimated
      segment per input segment. */
  function FilterTrack(track: Option<Track>, spacing: Option<real>, dist: Distance, show: Format): (r: Result<Option<Track>>)
    ensures track.None? ==> r == Ok(None)
    ensures track.Some? && track.value.name.None? ==> r == Err(TypeError)
    ensures track.Some? && track.value.name.Some? ==>
      && r.Ok? && r.value.Some?
      && r.value.value.name == Some(FilteredName(track.value.name.value, EffectiveSpacing(spacing), show))
      && |r.value.value.segments| == |track.value.segments|
      && (forall k :: 0 <= k < |track.value.segments| ==>
           r.value.value.segments[k] == Decimate(track.value.segments[k], EffectiveSpacing(spacing), dist))
      && forall k :: 0 <= k < |track.value.segments| ==>
           && |r.value.value.segments[k]| <= |track.value.segments[k]|
           && (r.value.value.segments[k] == [] <==> track.value.segments[k] == [])
           && (track.value.segments[k] != [] ==> r.value.value.segments[k][0] == track.value.segments[k][0])
  {
    match track
    case None => Ok(None)
    case Some(t) =>
      if t.name.None? then Err(TypeError)
      else
        var s := EffectiveSpacing(spacing);
        Ok(Some(Track(Some(FilteredName(t.name.value, s, show)),
                      Steps(t.segments, Decimator(s, dist)))))
  }

  /** Filtering the filtered track again with the same spacing leaves its
      segments as they are (only the name grows another suffix). */
  lemma RefilterKeepsSegments(t: Track, spacing: Option<real>, dist: Distance, show: Format)
    requires t.name.Some?
    ensures var once := FilterTrack(Some(t), spacing, dist, show).value.value;
            var twice := FilterTrack(Some(once), spacing, dist, show);
            twice.Ok? && twice.value.Some? && twice.value.value.segments == once.segments
  {
    var s := EffectiveSpacing(spacing);
    var once := FilterTrack(Some(t), spacing, dist, show).value.value;
    forall k | 0 <= k < |t.segments|
      ensures Decimate(once.segments[k], s, dist) == once.segments[k]
    {
      DecimateIdempotent(t.segments[k], s, dist);
    }
  }

  /** A spacing of 0 is not "keep everything": two points closer than the
      default distance come out as the first one alone. */
  lemma ZeroSpacingDropsNearPoint(a: Point, b: Point, name: string, dist: Distance, show: Format)
    requires dist(Coordinates(a), Coordinates(b)) < DefaultDistance
    ensures FilterTrack(Some(Track(Some(name), [[a, b]])), Some(0.0), dist, show)
         == Ok(Some(Track(Some(FilteredName(name, DefaultDistance, show)), [[a]])))
  {
    var seg := [a, b];
    assert Scan(seg, Coordinates(a), 2, DefaultDistance, dist) == [];
    assert Scan(seg, Coordinates(a), 1, DefaultDistance, dist) == [];
    assert KeptIndices(seg, DefaultDistance, dist) == [0];
    assert Decimate(seg, DefaultDistance, dist) == [a];
    var t := Track(Some(name), [seg]);
    var out := FilterTrack(Some(t), Some(0.0), dist, show).value.value;
    assert out.segments[0] == [a];
    assert out.segments == [[a]];
  }

  /** One pass of the inner loop after the first point: a point far enough
      from the last kept one is kept and becomes the new reference; a nearer
      one is skipped. Either way the kept indices so far plus the scan from
      the next point are still the indices the whole loop keeps. */
  lemma ScanStep(seg: Segment, idx: seq<nat>, last: LatLon, i: nat, spacing: real, dist: Distance)
    requires i < |seg|
    requires forall k :: 0 <= k < |idx| ==> idx[k] < i
    requires KeptIndices(seg, spacing, dist) == idx + Scan(seg, last, i, spacing, dist)
    ensures dist(last, Coordinates(seg[i])) >= spacing ==>
      KeptIndices(seg, spacing, dist) == (idx + [i]) + Scan(seg, Coordinates(seg[i]), i + 1, spacing, dist)
    ensures dist(last, Coordinates(seg[i])) < spacing ==>
      KeptIndices(seg, spacing, dist) == idx + Scan(seg, last, i + 1, spacing, dist)
  {
    if dist(last, Coordinates(seg[i])) >= spacing {
      assert idx + ([i] + Scan(seg, Coordinates(seg[i]), i + 1, spacing, dist))
          == (idx + [i]) + Scan(seg, Coordinates(seg[i]), i + 1, spacing, dist);
    }
  }

  /** The loop starts by keeping the first point. */
  lemma FirstStep(seg: Segment, spacing: real, dist: Distance)
    requires seg != []
    ensures KeptIndices(seg, spacing, dist) == ([] + [0]) + Scan(seg, Coordinates(seg[0]), 1, spacing, dist)
  {
    assert [] + [0] == [0];
  }

  /** The body of the inner loop of `process_track` for point `i`: the first
      point is always kept; a later one is kept, and becomes the new
      reference point, when it is at least `spacing` from the current
      reference. The kept indices so far plus the scan from the next point
      stay the indices the whole loop keeps. */
  method VisitPoint(seg: Segment, i: nat, previous: Option<LatLon>, kept: Segment, added: nat,
                    spacing: real, dist: Distance, ghost idx: seq<nat>)
    returns (next: Option<LatLon>, kept': Segment, added': nat, ghost idx': seq<nat>)
    requires i < |seg|
    requires previous.None? <==> i == 0
    requires forall k :: 0 <= k < |idx| ==> idx[k] < i
    requires |kept| == |idx| && forall k :: 0 <= k < |idx| ==> kept[k] == seg[idx[k]]
    requires i == 0 ==> idx == []
    requires i > 0 ==> KeptIndices(seg, spacing, dist) == idx + Scan(seg, previous.value, i, spacing, dist)
    ensures var keep := previous.None? || dist(previous.value, Coordinates(seg[i])) >= spacing;
      && next == (if keep then Some(Coordinates(seg[i])) else previous)
      && kept' == (if keep then kept + [seg[i]] else kept)
      && added' == (if keep then added + 1 else added)
    ensures next.Some?
    ensures forall k :: 0 <= k < |idx'| ==> idx'[k] < i + 1
    ensures |kept'| == |idx'| && forall k :: 0 <= k < |idx'| ==> kept'[k] == seg[idx'[k]]
    ensures KeptIndices(seg, spacing, dist) == idx' + Scan(seg, next.value, i + 1, spacing, dist)
  {
    var point := seg[i];
    var current := Coordinates(point);
    if previous.None? {
      FirstStep(seg, spacing, dist);
      KeptSnoc(seg, idx, kept, i);
      next, kept', added', idx' := Some(current), kept + [point], added + 1, idx + [i];
    } else {
      var distance := dist(previous.value, current);
      ScanStep(seg, idx, previous.value, i, spacing, dist);
      if distance >= spacing {
        KeptSnoc(seg, idx, kept, i);
        next, kept', added', idx' := Some(current), kept + [point], added + 1, idx + [i];
      } else {
        next, kept', added', idx' := previous, kept, added, idx;
      }
    }
  }

  /** The inner loop of `process_track` over one segment, with the running
      point counters it updates. */
  method FilterSegment(seg: Segment, spacing: real, dist: Distance, seen0: nat, added0: nat)
    returns (kept: Segment, seen: nat, added: nat)
    ensures kept == Decimate(seg, spacing, dist)
    ensures seen == seen0 + |seg|
    ensures added == added0 + |kept|
  {
    kept := [];
    seen, added := seen0, added0;
    var previous: Option<LatLon> := None;
    ghost var idx: seq<nat> := [];
    var i := 0;
    while i < |seg|
      invariant 0 <= i <= |seg|
      invariant seen == seen0 + i
      invariant added == added0 + |kept|
      invariant previous.None? <==> i == 0
      invariant forall k :: 0 <= k < |idx| ==> idx[k] < i
      invariant |kept| == |idx| && forall k :: 0 <= k < |idx| ==> kept[k] == seg[idx[k]]
      invariant i == 0 ==> idx == []
      invariant i > 0 ==> KeptIndices(seg, spacing, dist) == idx + Scan(seg, previous.value, i, spacing, dist)
    {
      seen := seen + 1;
      previous, kept, added, idx := VisitPoint(seg, i, previous, kept, added, spacing, dist, idx);
      i := i + 1;
    }
    SegmentDone(seg, idx, kept, previous, spacing, dist);
  }

  /** After the last point the kept points are the decimated segment. */
  lemma SegmentDone(seg: Segment, idx: seq<nat>, kept: Segment, previous: Option<LatLon>, spacing: real, dist: Distance)
    requires forall k :: 0 <= k < |idx| ==> idx[k] < |seg|
    requires |kept| == |idx| && forall k :: 0 <= k < |idx| ==> kept[k] == seg[idx[k]]
    requires previous.None? <==> seg == []
    requires seg == [] ==> idx == []
    requires seg != [] ==> KeptIndices(seg, spacing, dist) == idx + Scan(seg, previous.value, |seg|, spacing, dist)
    ensures kept == Decimate(seg, spacing, dist)
  {
    SelectOf(seg, idx, kept);
    if seg != [] {
      ScanDone(seg, idx, previous.value, spacing, dist);
    }
  }

  /** Keeping point `i` keeps the points and their indices in step. */
  lemma KeptSnoc(seg: Segment, idx: seq<nat>, kept: Segment, i: nat)
    requires i < |seg|
    requires |kept| == |idx| && forall k :: 0 <= k < |idx| ==> idx[k] < |seg| && kept[k] == seg[idx[k]]
    ensures |kept + [seg[i]]| == |idx + [i]|
    ensures forall k :: 0 <= k < |idx| + 1 ==> (kept + [seg[i]])[k] == seg[(idx + [i])[k]]
  {
  }

  /** At the end of the segment the scan has nothing left to keep. */
  lemma ScanDone(seg: Segment, idx: seq<nat>, last: LatLon, spacing: real, dist: Distance)
    requires forall k :: 0 <= k < |idx| ==> idx[k] < |seg|
    requires KeptIndices(seg, spacing, dist) == idx + Scan(seg, last, |seg|, spacing, dist)
    ensures Decimate(seg, spacing, dist) == Select(seg, idx)
  {
    assert Scan(seg, last, |seg|, spacing, dist) == [];
    assert idx + [] == idx;
  }

  /** `Decimate` with its spacing and distance fixed, as the step of the
      segment loop. */
  function Decimator(spacing: real, dist: Distance): Segment -> Segment {
    seg => Decimate(seg, spacing, dist)
  }

  /** The segment loop of `process_track`: one decimated segment per input
      segment, and the two point counters. */
  method FilterSegments(segments: seq<Segment>, spacing: real, dist: Distance)
    returns (out: seq<Segment>, original: nat, kept: nat)
    ensures out == Steps(segments, Decimator(spacing, dist))
    ensures original == TotalPoints(segments)
    ensures kept == TotalPoints(out)
  {
    out, original, kept := [], 0, 0;
    var i := 0;
    while i < |segments|
      invariant 0 <= i <= |segments|
      invariant out == Steps(segments[..i], Decimator(spacing, dist))
      invariant original == TotalPoints(segments[..i])
      invariant kept == TotalPoints(out)
    {
      var newSegment;
      newSegment, original, kept := FilterSegment(segments[i], spacing, dist, original, kept);
      StepsSnoc(segments, i, Decimator(spacing, dist));
      TotalPointsPrefix(segments, i);
      TotalPointsSnoc(out, newSegment);
      out := out + [newSegment];
      i := i + 1;
    }
    assert segments[..i] == segments;
  }

  /** `process_track` with its `orig_num_points` / `new_num_points` counters:
      the result is `FilterTrack`'s, the first counter is the number of input
      points and the second the number of points kept. */
  method ProcessTrack(track: Option<Track>, spacing: Option<real>, dist: Distance, show: Format)
    returns (r: Result<Option<Track>>, original: nat, kept: nat)
    ensures r == FilterTrack(track, spacing, dist, show)
    ensures r.Ok? && r.value.Some? ==>
      && original == TotalPoints(track.value.segments)
      && kept == TotalPoints(r.value.value.segments)
      && kept <= original
  {
    original, kept := 0, 0;
    if track.None? {
      return Ok(None), original, kept;
    }
    var t := track.value;
    if t.name.None? {
      return Err(TypeError), original, kept;
    }
    var s := EffectiveSpacing(spacing);
    var name := FilteredName(t.name.value, s, show);
    var segments;
    segments, original, kept := FilterSegments(t.segments, s, dist);
    r := Ok(Some(Track(Some(name), segments)));
    TotalPointsShrinks(segments, t.segments);
  }
}
