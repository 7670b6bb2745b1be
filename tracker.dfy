/** The tracker itself: its parameters, the nearest-point search and the
    nearest-neighbour linking, written as the loops they are and proved equal
    to the functions of `TrackerSpec`. */
module Tracker {
  import opened Wrappers
  import opened PointSerieModel
  import opened TrackerSpec

  /** The tracking parameters.  `maxDistance` is the largest distance, in
      pixels, a point may travel between two linked frames; a track is kept
      only with strictly more than `minTrackedFrames` points; `channel` only
      labels the outputs. */
  class Parameters {
    var maxDistance: int
    var minTrackedFrames: int
    var channel: int

    /** The values the fields start with. */
    constructor ()
      ensures maxDistance == 10 && minTrackedFrames == 3 && channel == 0
    {
      maxDistance := 10;
      minTrackedFrames := 3;
      channel := 0;
    }

    method ResetParameters()
      modifies this
      ensures maxDistance == 5 && minTrackedFrames == 3 && channel == 0
    {
      maxDistance := 5;
      minTrackedFrames := 3;
      channel := 0;
    }

    method SetParameters(maxJump: int, minFrames: int, c: int)
      modifies this
      ensures maxDistance == maxJump && minTrackedFrames == minFrames && channel == c
    {
      maxDistance := maxJump;
      minTrackedFrames := minFrames;
      channel := c;
    }

    method SetMaxDistance(maxJump: int)
      modifies this
      ensures maxDistance == maxJump
      ensures minTrackedFrames == old(minTrackedFrames) && channel == old(channel)
    {
      maxDistance := maxJump;
    }

    method SetMinTrackedFrames(minFrames: int)
      modifies this
      ensures minTrackedFrames == minFrames
      ensures maxDistance == old(maxDistance) && channel == old(channel)
    {
      minTrackedFrames := minFrames;
    }

    method SetChannel(c: int)
      modifies this
      ensures channel == c
      ensures maxDistance == old(maxDistance) && minTrackedFrames == old(minTrackedFrames)
    {
      channel := c;
    }
  }

  /** Index and squared distance of the point of `pointSerie` nearest to
      `point`, the first one on ties; `None` when the series is empty. */
  method GetClosestPoint(point: Point, pointSerie: PointSerie) returns (r: Option<Nearest>)
    ensures r == Closest(point, pointSerie.points)
  {
    var minDist: nat := 0;
    var index: int := -1;
    var i := 0;
    while i < pointSerie.GetNPoints()
      invariant 0 <= i <= |pointSerie.points|
      invariant index == -1 <==> i == 0
      invariant index != -1 ==> Closest(point, pointSerie.points[..i]) == Some(Nearest(index, minDist))
    {
      var currDist := SqDist(point, pointSerie.GetPoint(i));
      assert pointSerie.points[..i + 1][..i] == pointSerie.points[..i];
      if index == -1 || currDist < minDist {
        index := i;
        minDist := currDist;
      }
      i := i + 1;
    }
    assert pointSerie.points[..i] == pointSerie.points;
    if index == -1 {
      return None;
    }
    return Some(Nearest(index, minDist));
  }

  /** `series` holds, one by one, the point lists `w`. */
  predicate Holds(series: seq<PointSerie>, w: seq<seq<Point>>)
    reads set s | s in series
  {
    |series| == |w| && forall f :: 0 <= f < |w| ==> series[f].points == w[f]
  }

  /** No series occurs twice. */
  predicate Distinct(series: seq<PointSerie>)
  {
    forall a, b :: 0 <= a < b < |series| ==> series[a] != series[b]
  }

  /** The working copy: a fresh clone of every input series. */
  method CloneFrames(detections: seq<PointSerie>, ghost w: seq<seq<Point>>) returns (toAnalyze: seq<PointSerie>)
    requires Holds(detections, w)
    ensures Holds(toAnalyze, w)
    ensures Distinct(toAnalyze)
    ensures forall f :: 0 <= f < |toAnalyze| ==> fresh(toAnalyze[f])
  {
    toAnalyze := [];
    for i := 0 to |detections|
      invariant |toAnalyze| == i
      invariant forall a :: 0 <= a < i ==> fresh(toAnalyze[a]) && toAnalyze[a].points == detections[a].points
      invariant Distinct(toAnalyze)
    {
      var c := detections[i].Clone();
      toAnalyze := toAnalyze + [c];
    }
  }

  /** Moves point `index` of working frame `k` to the end of `tmpTrack`,
      appending its tag to the track's tag. */
  method TakePoint(toAnalyze: seq<PointSerie>, ghost frames: seq<seq<Point>>, k: nat, index: nat,
                   tmpTrack: PointSerie)
    returns (currPoint: Point)
    requires Holds(toAnalyze, frames) && Distinct(toAnalyze) && tmpTrack !in toAnalyze
    requires k < |frames| && index < |frames[k]|
    modifies tmpTrack, toAnalyze[k]
    ensures currPoint == frames[k][index]
    ensures Holds(toAnalyze, frames[k := RemoveAt(frames[k], index)])
    ensures tmpTrack.points == old(tmpTrack.points) + [currPoint]
    ensures tmpTrack.tag == old(tmpTrack.tag) + "\t" + currPoint.tag && tmpTrack.name == old(tmpTrack.name)
  {
    currPoint := toAnalyze[k].GetPoint(index);
    tmpTrack.Add(currPoint);
    tmpTrack.SetTag(tmpTrack.tag + "\t" + currPoint.tag);
    toAnalyze[k].Remove(index);
  }

  /** One pass of the forward walk at working frame `k`: the nearest point
      of the frame to `currPoint` is moved to the track when it is within
      `maxDistance`; the frame is passed over when it is farther.  `visited`
      is false exactly when the frame is empty, which ends the walk. */
  method VisitFrame(toAnalyze: seq<PointSerie>, ghost frames: seq<seq<Point>>, k: nat,
                    tmpTrack: PointSerie, currPoint: Point, ghost points: seq<Point>, ghost tag: string,
                    ghost origins: seq<nat>, maxDistance: int)
    returns (visited: bool, nextPoint: Point, ghost frames': seq<seq<Point>>, ghost points': seq<Point>,
             ghost tag': string, ghost origins': seq<nat>)
    requires Holds(toAnalyze, frames) && Distinct(toAnalyze) && tmpTrack !in toAnalyze && k < |frames|
    requires |points| > 0 && currPoint == Last(points) && tmpTrack.points == points && tmpTrack.tag == tag
    modifies tmpTrack, toAnalyze[k]
    ensures Holds(toAnalyze, frames')
    ensures tmpTrack.points == points' && tmpTrack.tag == tag' && tmpTrack.name == old(tmpTrack.name)
    ensures |points'| > 0 && nextPoint == Last(points')
    ensures !visited ==> frames' == frames && points' == points && tag' == tag && origins' == origins
    ensures !visited ==> Extend(frames, k, points, tag, origins, maxDistance) == Growth(frames, points, tag, origins, k)
    ensures visited ==>
      Extend(frames, k, points, tag, origins, maxDistance) == Extend(frames', k + 1, points', tag', origins', maxDistance)
  {
    visited, nextPoint := true, currPoint;
    frames', points', tag', origins' := frames, points, tag, origins;
    var data := GetClosestPoint(currPoint, toAnalyze[k]);
    if data.Some? {
      if Within(data.value.dist, maxDistance) {
        nextPoint := TakePoint(toAnalyze, frames, k, data.value.index, tmpTrack);
        frames' := frames[k := RemoveAt(frames[k], data.value.index)];
        points' := points + [nextPoint];
        tag' := tag + "\t" + nextPoint.tag;
        origins' := origins + [k];
      }
    } else {
      visited := false;
    }
  }

  /** Walks one track forward from frame `k0` through the working frames,
      appending each nearest point within `maxDistance` (and removing it from
      its frame), passing over frames whose nearest point is farther, and
      stopping at the first empty frame.  `frames0` is what the working
      frames hold on entry; the ghost result is the walk's final state, which
      is `Extend` of the state on entry. */
  method ExtendTrack(toAnalyze: seq<PointSerie>, ghost frames0: seq<seq<Point>>, k0: nat,
                     tmpTrack: PointSerie, currPoint0: Point, ghost origins0: seq<nat>, maxDistance: int)
    returns (ghost g: Growth)
    requires Holds(toAnalyze, frames0) && Distinct(toAnalyze) && tmpTrack !in toAnalyze
    requires |tmpTrack.points| > 0 && currPoint0 == Last(tmpTrack.points)
    requires k0 <= |toAnalyze|
    modifies tmpTrack, set s | s in toAnalyze
    ensures g == Extend(frames0, k0, old(tmpTrack.points), old(tmpTrack.tag), origins0, maxDistance)
    ensures Holds(toAnalyze, g.frames)
    ensures tmpTrack.points == g.points && tmpTrack.tag == g.tag && tmpTrack.name == old(tmpTrack.name)
  {
    ghost var frames := frames0;
    ghost var points := tmpTrack.points;
    ghost var tag := tmpTrack.tag;
    ghost var origins: seq<nat> := origins0;
    var currPoint := currPoint0;
    var k: nat := k0;
    while k < |toAnalyze|
      invariant Holds(toAnalyze, frames)
      invariant tmpTrack.points == points && tmpTrack.tag == tag && tmpTrack.name == old(tmpTrack.name)
      invariant |points| > 0 && currPoint == Last(points)
      invariant Extend(frames, k, points, tag, origins, maxDistance)
             == Extend(frames0, k0, old(tmpTrack.points), old(tmpTrack.tag), origins0, maxDistance)
    {
      var visited;
      visited, currPoint, frames, points, tag, origins :=
        VisitFrame(toAnalyze, frames, k, tmpTrack, currPoint, points, tag, origins, maxDistance);
      if !visited {
        break;
      }
      k := k + 1;
    }
    g := Growth(frames, points, tag, origins, k);
  }

  /** Appends the finished track to `tracks` when it has strictly more than
      `minTrackedFrames` points, naming it after its place in the list. */
  method KeepTrack(tmpTrack: PointSerie, ghost g: Growth, tracks: seq<PointSerie>, ghost kept: seq<Linked>,
                   minTrackedFrames: int)
    returns (tracks': seq<PointSerie>, ghost kept': seq<Linked>)
    requires tmpTrack.Value() == Serie(g.points, g.tag, "") && tmpTrack !in tracks
    requires |tracks| == |kept|
    requires forall t :: 0 <= t < |tracks| ==> tracks[t].Value() == kept[t].track
    requires Distinct(tracks)
    modifies tmpTrack
    ensures kept' == Keep(kept, g, minTrackedFrames)
    ensures Distinct(tracks')
    ensures tracks' == tracks || tracks' == tracks + [tmpTrack]
    ensures |tracks'| == |kept'|
    ensures forall t :: 0 <= t < |tracks'| ==> tracks'[t].Value() == kept'[t].track
  {
    tracks', kept' := tracks, Keep(kept, g, minTrackedFrames);
    if tmpTrack.GetNPoints() > minTrackedFrames {
      tmpTrack.SetName("Track_" + NatToString(|tracks| + 1));
      tracks' := tracks + [tmpTrack];
    }
  }

  /** Seeds a track at point `j` of working frame `i`, tagged with that
      point's tag, walks it forward from frame `i + 1` and keeps it when it
      is long enough: one step of `SeedFrom`. */
  method SeedTrack(toAnalyze: seq<PointSerie>, ghost frames: seq<seq<Point>>, i: nat, j: nat,
                   tracks: seq<PointSerie>, ghost kept: seq<Linked>, maxDistance: int, minTrackedFrames: int)
    returns (tracks': seq<PointSerie>, ghost frames': seq<seq<Point>>, ghost kept': seq<Linked>)
    requires Holds(toAnalyze, frames) && Distinct(toAnalyze) && i < |frames| && j < |frames[i]|
    requires |tracks| == |kept|
    requires forall t :: 0 <= t < |tracks| ==> tracks[t].Value() == kept[t].track && tracks[t] !in toAnalyze
    requires Distinct(tracks)
    modifies set s | s in toAnalyze
    ensures Holds(toAnalyze, frames') && frames'[i] == frames[i]
    ensures SeedFrom(frames, i, j, kept, maxDistance, minTrackedFrames)
         == SeedFrom(frames', i, j + 1, kept', maxDistance, minTrackedFrames)
    ensures |tracks'| == |kept'| && |tracks| <= |tracks'| <= |tracks| + 1
    ensures forall t :: 0 <= t < |tracks| ==> tracks'[t] == tracks[t]
    ensures forall t :: 0 <= t < |tracks'| ==> tracks'[t].Value() == kept'[t].track && tracks'[t] !in toAnalyze
    ensures forall t :: |tracks| <= t < |tracks'| ==> fresh(tracks'[t])
    ensures Distinct(tracks')
  {
    var currPoint := toAnalyze[i].GetPoint(j);
    var tmpTrack := new PointSerie(currPoint);
    tmpTrack.SetTag(currPoint.tag);
    ghost var g := ExtendTrack(toAnalyze, frames, i + 1, tmpTrack, currPoint, [i], maxDistance);
    assert g == SeedGrowth(frames, i, j, maxDistance);
    tracks', kept' := KeepTrack(tmpTrack, g, tracks, kept, minTrackedFrames);
    frames' := g.frames;
  }

  /** Seeds a track from every point of working frame `i`, walks it forward
      and appends it to `tracks` when it has strictly more than
      `minTrackedFrames` points, named after its place in the list. */
  method SeedTracksFromFrame(toAnalyze: seq<PointSerie>, ghost frames0: seq<seq<Point>>, i: nat,
                             tracks0: seq<PointSerie>, ghost kept0: seq<Linked>,
                             maxDistance: int, minTrackedFrames: int)
    returns (tracks: seq<PointSerie>, ghost frames: seq<seq<Point>>, ghost kept: seq<Linked>)
    requires Holds(toAnalyze, frames0) && Distinct(toAnalyze) && i < |frames0|
    requires |tracks0| == |kept0|
    requires forall t :: 0 <= t < |tracks0| ==> tracks0[t].Value() == kept0[t].track && tracks0[t] !in toAnalyze
    requires Distinct(tracks0)
    modifies set s | s in toAnalyze
    ensures Progress(frames, kept) == SeedFrom(frames0, i, 0, kept0, maxDistance, minTrackedFrames)
    ensures Holds(toAnalyze, frames)
    ensures |tracks| == |kept| && |tracks0| <= |tracks|
    ensures forall t :: 0 <= t < |tracks0| ==> tracks[t] == tracks0[t]
    ensures forall t :: 0 <= t < |tracks| ==> tracks[t].Value() == kept[t].track && tracks[t] !in toAnalyze
    ensures forall t :: |tracks0| <= t < |tracks| ==> fresh(tracks[t])
    ensures Distinct(tracks)
  {
    tracks, frames, kept := tracks0, frames0, kept0;
    var currPool := toAnalyze[i];
    var j := 0;
    while j < currPool.GetNPoints()
      invariant Holds(toAnalyze, frames) && currPool.points == frames[i] == frames0[i]
      invariant SeedFrom(frames, i, j, kept, maxDistance, minTrackedFrames)
             == SeedFrom(frames0, i, 0, kept0, maxDistance, minTrackedFrames)
      invariant |tracks| == |kept| && |tracks0| <= |tracks|
      invariant forall t :: 0 <= t < |tracks0| ==> tracks[t] == tracks0[t]
      invariant forall t :: 0 <= t < |tracks| ==> tracks[t].Value() == kept[t].track && tracks[t] !in toAnalyze
      invariant forall t :: |tracks0| <= t < |tracks| ==> fresh(tracks[t])
      invariant Distinct(tracks)
      decreases |currPool.points| - j
    {
      tracks, frames, kept := SeedTrack(toAnalyze, frames, i, j, tracks, kept, maxDistance, minTrackedFrames);
      j := j + 1;
    }
  }

  /** Links the points of consecutive frames into tracks.  `W` is the list
      of points each input series holds.  Works on a copy of `detections`,
      which is left as it was; returns the kept tracks as fresh, distinct
      series, equal one by one to `Link` of the input. */
  method DoNearestNeighbor(detections: seq<PointSerie>, ghost W: seq<seq<Point>>,
                           maxDistance: int, minTrackedFrames: int)
    returns (tracks: seq<PointSerie>)
    requires Holds(detections, W)
    ensures Holds(detections, W)
    ensures |tracks| == |Link(W, maxDistance, minTrackedFrames)|
    ensures forall t :: 0 <= t < |tracks| ==> tracks[t].Value() == Link(W, maxDistance, minTrackedFrames)[t]
    ensures forall t :: 0 <= t < |tracks| ==> fresh(tracks[t])
    ensures Distinct(tracks)
  {
    var toAnalyze := CloneFrames(detections, W);
    ghost var frames := W;
    ghost var kept: seq<Linked> := [];
    tracks := [];
    var i := 0;
    while i + 1 < |toAnalyze|
      invariant Holds(toAnalyze, frames)
      invariant FrameFrom(frames, i, kept, maxDistance, minTrackedFrames) == Run(W, maxDistance, minTrackedFrames)
      invariant |tracks| == |kept|
      invariant forall t :: 0 <= t < |tracks| ==> tracks[t].Value() == kept[t].track && tracks[t] !in toAnalyze
      invariant forall t :: 0 <= t < |tracks| ==> fresh(tracks[t])
      invariant Distinct(tracks)
      invariant forall f :: 0 <= f < |toAnalyze| ==> fresh(toAnalyze[f])
    {
      tracks, frames, kept := SeedTracksFromFrame(toAnalyze, frames, i, tracks, kept, maxDistance, minTrackedFrames);
      i := i + 1;
    }
    assert Run(W, maxDistance, minTrackedFrames).kept == kept;
  }
}
