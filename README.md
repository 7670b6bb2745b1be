# Nearest-neighbour tracker of DTC, in Dafny

This project models the tracking core of the DTC ImageJ plugin,
`DTC_/src/DTC/tools/tracker.java`.

## What it does

The tracker takes one list of detected points per time frame and links them
into tracks. Linking is greedy:

- every point still in the working copy of every frame except the last
  seeds a track;
- the track walks forward through the later frames;
- in each frame it takes the point nearest to its last point, when that point
  is within `maxDistance`, and removes it from the working copy of that frame;
- an empty frame ends the walk;
- a track with strictly more than `minTrackedFrames` points is kept and named
  `Track_<n>`, in the order tracks are found.

Each track's tag joins its points' tags with tabs. Two renderers then output
the tracks whose tag passes a filter keyword: one sends them to the ROI
Manager, the other to a results table. The filter looks at whether the markers
"Prox" and "Coloc" occur in the tag.

## Files

- `wrappers.dfy` (module `Wrappers`): the `Option` type.
- `point_serie.dfy` (module `PointSerieModel`):
  - points with integer coordinates and a tag;
  - the squared distance and the distance gate;
  - `PointSerie`, the mutable list of points with a tag and a name that the
    tracker uses both for a frame and for a track.
- `tracker_spec.dfy` (module `TrackerSpec`): the algorithm as functions on
  values. There is one function per loop of the tracker:
  - `Extend` for the walk over later frames;
  - `SeedFrom` for the points of a frame;
  - `FrameFrom` for the frames;
  - `Link` for the whole run;
  - `Closest` for the nearest-point search.
- `tracker.dfy` (module `Tracker`):
  - the parameters as a class;
  - the search and the linking as methods with their loops, each proved equal
    to the function of `TrackerSpec` for the same loop. `DoNearestNeighbor`
    returns fresh, pairwise distinct series equal, one by one, to `Link` of
    its input. The input is left unchanged. Its ghost argument `W` names the
    points each input series holds.
- `tracker_properties.dfy` (module `TrackerProperties`): what `Link` delivers
  on every input:
  - tracks long enough;
  - names `Track_1`, `Track_2`, … in order, all distinct;
  - tags that join the points' tags;
  - consecutive points within the gate;
  - points taken from strictly increasing frames;
  - no detection used by two tracks.
- `tracker_scenarios.dfy` (module `TrackerScenarios`): small inputs worked
  through `Link`:
  - the gate at its boundary;
  - a far frame passed over;
  - an empty frame ending the walk.
- `tag_filter.dfy` (module `TagFilter`):
  - each renderer's chain of five rules, written as in the source over
    `indexOf`;
  - both chains proved equal to one table of rules per keyword. So the two
    renderers output the same tracks.

Distances are compared squared. `Within(d2, maxDistance)` holds when
`0 <= maxDistance` and `d2 <= maxDistance * maxDistance`. For a non-negative
integer `maxDistance`, that is `sqrt(d2) <= maxDistance`. The static
parameters of the Java class are the fields of `Tracker.Parameters`.
`DoNearestNeighbor` takes their values as arguments.

### How the walk and the filter behave

- A nearest point farther than `maxDistance` does not end the walk: the test
  on line 122 has no `else`. The frame is passed over, and the next frame is
  searched from the same last point. Only an empty frame ends the walk (lines
  135-137).
  - `TrackerProperties.ExtendStopsOnlyAtEmptyFrame` states the stopping rule.
  - `TrackerProperties.ExtendLeavesUnusedFrames` states that a passed frame
    is left intact.
  - `TrackerScenarios.FarFramePassedOver` works an example through.
- A filter keyword other than the six fires no rule, so the track is output
  (lines 229-239, 263-273). `TagFilter.UnfilteredKeywords` states this.
- A track that is too short is dropped, but the points it took stay removed
  from the working frames (lines 133 and 141). So the frames left for later
  seeds do not depend on `minTrackedFrames`
  (`TrackerProperties.RunFramesIgnoreLengthFilter`).

The field initialisers give `maxDistance` 10. `resetParameters` and the
setters' documentation give 5. The doc comment above `resetParameters` lists
yet other names and values. The model keeps the values the code assigns:
10 at start, 5 after a reset.

## Model

| member | source | states |
|---|---|---|
| PointSerieModel.SqDist | DTC_/src/DTC/tools/tracker.java:161 | no contract of its own: the squared distance that `Closest` minimises; `TrackerSpec.Closest` and `TrackerSpec.ClosestIsFirstNearest` carry its use |
| PointSerieModel.Within | DTC_/src/DTC/tools/tracker.java:122 | no contract of its own: the gate `distance <= maxDistance` on squared distances; `TrackerProperties.LinkTracksChained`, `TrackerScenarios.ExactDistanceLinks` and `TrackerScenarios.BeyondDistanceDoesNotLink` state what it admits |
| PointSerieModel.RemoveAt | DTC_/src/DTC/tools/tracker.java:133 | removing a point from a frame shortens it by one, keeps the points before it, shifts the later ones down, and takes away exactly that point from the multiset |
| PointSerieModel.PointSerie.constructor | DTC_/src/DTC/tools/tracker.java:111 | a new track holds exactly its seed point |
| PointSerieModel.PointSerie.GetNPoints | DTC_/src/DTC/tools/tracker.java:106 | no contract of its own: the number of points the series holds now; `Tracker.GetClosestPoint` and `Tracker.SeedTracksFromFrame` bound their loops by it |
| PointSerieModel.PointSerie.GetPoint | DTC_/src/DTC/tools/tracker.java:160-161 | no contract of its own: the point at an index the series holds now (also lines 108 and 124); `Tracker.GetClosestPoint` and `Tracker.TakePoint` read through it |
| PointSerieModel.PointSerie.Clone | DTC_/src/DTC/tools/tracker.java:97 | a clone is a fresh series holding the same points, tag and name |
| PointSerieModel.PointSerie.Add | DTC_/src/DTC/tools/tracker.java:127 | appends the point and changes nothing else |
| PointSerieModel.PointSerie.Remove | DTC_/src/DTC/tools/tracker.java:133 | removes the point at the index and changes nothing else |
| PointSerieModel.PointSerie.SetTag | DTC_/src/DTC/tools/tracker.java:130 | replaces the tag and changes nothing else |
| PointSerieModel.PointSerie.SetName | DTC_/src/DTC/tools/tracker.java:142 | replaces the name and changes nothing else |
| TrackerSpec.Closest | DTC_/src/DTC/tools/tracker.java:156-172 | the search gives no result exactly when the frame is empty; otherwise it gives the index of a point at minimum distance, the first such on ties, and that point's distance |
| TrackerSpec.FirstNearestUnique | DTC_/src/DTC/tools/tracker.java:163-166 | replacing only on a strictly smaller distance leaves just one possible answer: the first minimum |
| TrackerSpec.ClosestIsFirstNearest | DTC_/src/DTC/tools/tracker.java:156-172 | the search answers an index and distance if and only if they are the first minimum |
| TrackerSpec.NatToString | DTC_/src/DTC/tools/tracker.java:142 | the decimal notation of a track number is never empty, and has at least two digits from 10 on |
| TrackerSpec.NatToStringInjective | DTC_/src/DTC/tools/tracker.java:142 | different track numbers have different decimal notations |
| TrackerSpec.TrackNameInjective | DTC_/src/DTC/tools/tracker.java:142 | different track numbers give different names `Track_<n>` |
| TrackerSpec.Extend | DTC_/src/DTC/tools/tracker.java:114-138 | the walk keeps the number of frames and never changes a frame before the one it starts at |
| TrackerSpec.ExtendStep | DTC_/src/DTC/tools/tracker.java:120-134 | at a non-empty frame the walk takes and removes the nearest point when it is within the gate, and otherwise goes on to the next frame unchanged |
| TrackerSpec.SeedFrom | DTC_/src/DTC/tools/tracker.java:106-145 | seeding from a frame keeps the number of frames and leaves that frame and every earlier frame unchanged |
| TrackerSpec.FrameFrom | DTC_/src/DTC/tools/tracker.java:102-146 | the run over the frames keeps their number |
| TrackerSpec.JoinTags | DTC_/src/DTC/tools/tracker.java:112-130 | no contract of its own: the points' tags joined with tabs, as lines 112 and 130 build them; `TrackerProperties.JoinTagsAppend` and `TrackerProperties.LinkTrackTags` carry its properties |
| TrackerSpec.SeedGrowth | DTC_/src/DTC/tools/tracker.java:108-138 | no contract of its own: the track seeded from one point and walked on from the next frame; `TrackerProperties.SeedGrowthPicks` carries its properties |
| TrackerSpec.Keep | DTC_/src/DTC/tools/tracker.java:140-144 | no contract of its own: the length filter and the naming; `Tracker.KeepTrack` is proved against it and `TrackerProperties.LinkTracksLongEnough` and `TrackerProperties.LinkTrackNames` state what it keeps |
| TrackerSpec.Run | DTC_/src/DTC/tools/tracker.java:102-146 | no contract of its own: the loop over the frames from the first; `TrackerProperties.RunKeptWellFormed`, `TrackerProperties.RunNoDoubleClaim`, `TrackerProperties.RunTrackFrames` and `TrackerProperties.RunFramesIgnoreLengthFilter` carry its properties |
| TrackerSpec.Link | DTC_/src/DTC/tools/tracker.java:94-148 | no contract of its own: the tracks of the whole run; `Tracker.DoNearestNeighbor` is proved against it and the `TrackerProperties.Link*` lemmas state what it returns |
| Tracker.Parameters.constructor | DTC_/src/DTC/tools/tracker.java:19-26 | the parameters start as maxDistance 10, minTrackedFrames 3, channel 0 |
| Tracker.Parameters.ResetParameters | DTC_/src/DTC/tools/tracker.java:34-40 | a reset sets maxDistance 5, minTrackedFrames 3, channel 0 |
| Tracker.Parameters.SetParameters | DTC_/src/DTC/tools/tracker.java:49-55 | sets all three parameters to the given values |
| Tracker.Parameters.SetMaxDistance | DTC_/src/DTC/tools/tracker.java:61-63 | sets maxDistance; the other parameters are unchanged |
| Tracker.Parameters.SetMinTrackedFrames | DTC_/src/DTC/tools/tracker.java:69-71 | sets minTrackedFrames; the other parameters are unchanged |
| Tracker.Parameters.SetChannel | DTC_/src/DTC/tools/tracker.java:77-79 | sets channel; the other parameters are unchanged |
| Tracker.GetClosestPoint | DTC_/src/DTC/tools/tracker.java:156-172 | the loop's answer is `Closest` of the series' points: none for an empty series, else the first point at minimum distance with its distance |
| Tracker.CloneFrames | DTC_/src/DTC/tools/tracker.java:96-97 | the working copy is a list of fresh, pairwise distinct series holding the input's points frame by frame, and the input is left unchanged |
| Tracker.TakePoint | DTC_/src/DTC/tools/tracker.java:124-133 | the chosen point is appended to the track, its tag appended after a tab, and it is removed from its working frame, the other frames unchanged |
| Tracker.VisitFrame | DTC_/src/DTC/tools/tracker.java:115-137 | one pass of the inner loop is one step of `Extend`: an empty frame ends the walk with nothing changed, and any other frame leaves the walk's remaining result the same |
| Tracker.ExtendTrack | DTC_/src/DTC/tools/tracker.java:114-138 | the inner loop leaves the track and the working frames exactly as `Extend` computes them |
| Tracker.KeepTrack | DTC_/src/DTC/tools/tracker.java:140-144 | a track with strictly more than minTrackedFrames points is named after its place and appended; a shorter one is dropped |
| Tracker.SeedTrack | DTC_/src/DTC/tools/tracker.java:107-144 | one pass of the loop over a frame's points is one step of `SeedFrom`, and the tracks so far are kept in place |
| Tracker.SeedTracksFromFrame | DTC_/src/DTC/tools/tracker.java:104-145 | the loop over a frame's points gives the frames and tracks `SeedFrom` computes, appending fresh tracks only |
| Tracker.DoNearestNeighbor | DTC_/src/DTC/tools/tracker.java:94-148 | the input frames are unchanged and the result is a list of fresh, pairwise distinct tracks equal, one by one, to `Link` of the input |
| TrackerProperties.JoinTagsAppend | DTC_/src/DTC/tools/tracker.java:130 | appending a point appends a tab and its tag to the joined tags |
| TrackerProperties.ExtendReached | DTC_/src/DTC/tools/tracker.java:114 | the walk ends at a frame between the one it starts at and the end |
| TrackerProperties.ExtendOrigins | DTC_/src/DTC/tools/tracker.java:114-138 | the walk only appends to the track, and every point it appends comes from a frame at or after its start and before the frame where it ended |
| TrackerProperties.ExtendShape | DTC_/src/DTC/tools/tracker.java:122-130 | the walk keeps the tag equal to the joined tags of the points, every two consecutive points within the gate, and the frames of the points strictly increasing |
| TrackerProperties.ExtendStopsOnlyAtEmptyFrame | DTC_/src/DTC/tools/tracker.java:114-138 | the walk ends either past the last frame or at a frame that was empty; a far nearest point never ends it |
| TrackerProperties.ExtendLeavesUnusedFrames | DTC_/src/DTC/tools/tracker.java:121-134 | a frame the walk took no point from, in particular one passed over, is left exactly as it was |
| TrackerProperties.ExtendIsPrefix | DTC_/src/DTC/tools/tracker.java:127 | the walk only appends to the track's points and their frame indices, one index per point |
| TrackerProperties.ExtendConserves | DTC_/src/DTC/tools/tracker.java:124-133 | every point the walk takes leaves its frame: for each frame, the remaining points together with those the track holds from it are the same multiset before and after |
| TrackerProperties.SeedFromKeepsInvariant | DTC_/src/DTC/tools/tracker.java:106-145 | seeding from a frame keeps every kept track well formed, and the tracks stay in the order of their seed frames |
| TrackerProperties.FrameStepKeepsInvariant | DTC_/src/DTC/tools/tracker.java:102-145 | one pass of the loop over the frames keeps every kept track well formed, with the bound moved on to the next frame |
| TrackerProperties.FrameFromKeepsInvariant | DTC_/src/DTC/tools/tracker.java:102-146 | the loop over the frames keeps every kept track well formed and seeded from a frame other than the last |
| TrackerProperties.SeedGrowthPicks | DTC_/src/DTC/tools/tracker.java:108-138 | a seed track holds its seed from its own frame, nothing from earlier frames, and from each later frame exactly the points removed from that frame |
| TrackerProperties.SeedStepAt | DTC_/src/DTC/tools/tracker.java:106-145 | one seeded track, kept or not, never lets the claimed and remaining points of a frame exceed its input points |
| TrackerProperties.SeedFromClaims | DTC_/src/DTC/tools/tracker.java:106-145 | seeding from a frame keeps, for every frame, the points claimed by kept tracks plus the points left within that frame's input |
| TrackerProperties.FrameStepClaims | DTC_/src/DTC/tools/tracker.java:102-146 | one pass of the loop over frames keeps the claim invariant |
| TrackerProperties.FrameFromClaims | DTC_/src/DTC/tools/tracker.java:102-146 | after the loop over frames, the points the kept tracks hold from each frame are among that frame's input points |
| TrackerProperties.SeedFromFramesIgnoreKeep | DTC_/src/DTC/tools/tracker.java:133-144 | the working frames after seeding from a frame are the same whatever tracks were kept before and whatever minTrackedFrames is: a dropped track's points stay removed |
| TrackerProperties.FrameFromFramesIgnoreKeep | DTC_/src/DTC/tools/tracker.java:102-146 | the working frames after the loop over the frames do not depend on the tracks kept so far nor on minTrackedFrames |
| TrackerProperties.RunFramesIgnoreLengthFilter | DTC_/src/DTC/tools/tracker.java:94-148 | the points left in the working frames after the run are the same for every minTrackedFrames |
| TrackerProperties.RunKeptWellFormed | DTC_/src/DTC/tools/tracker.java:94-148 | every kept track is long enough, named after its place, tagged with its points' tags, chained within the gate, in increasing frames, and the tracks are in seed-frame order |
| TrackerProperties.RunNoDoubleClaim | DTC_/src/DTC/tools/tracker.java:94-148 | no detection is used twice: the points all kept tracks hold from a frame, counted with multiplicity, are among that frame's input points |
| TrackerProperties.IncreasingBound | DTC_/src/DTC/tools/tracker.java:114 | a track seeded from frame s holds at most one point per frame from s on |
| TrackerProperties.LinkTracksLongEnough | DTC_/src/DTC/tools/tracker.java:141 | every returned track has strictly more than minTrackedFrames points |
| TrackerProperties.LinkTrackNames | DTC_/src/DTC/tools/tracker.java:142 | the returned tracks are named Track_1, Track_2, … in order, and no two share a name |
| TrackerProperties.LinkTrackTags | DTC_/src/DTC/tools/tracker.java:112-130 | every returned track's tag is its points' tags joined with tabs |
| TrackerProperties.LinkTracksChained | DTC_/src/DTC/tools/tracker.java:122 | every two consecutive points of a returned track are within maxDistance of each other |
| TrackerProperties.RunTrackFrames | DTC_/src/DTC/tools/tracker.java:102-114 | a kept track's points come from strictly increasing frames, starting before the last frame, so it has at most one point per remaining frame |
| TrackerProperties.LinkNeedsTwoFrames | DTC_/src/DTC/tools/tracker.java:102 | with fewer than two frames no track is returned |
| TrackerScenarios.ExactDistanceLinks | DTC_/src/DTC/tools/tracker.java:122 | two points exactly maxDistance apart are linked into one track |
| TrackerScenarios.BeyondDistanceDoesNotLink | DTC_/src/DTC/tools/tracker.java:122 | two points one pixel farther apart than maxDistance are not linked |
| TrackerScenarios.FarFramePassedOver | DTC_/src/DTC/tools/tracker.java:120-137 | a frame whose nearest point is too far is passed over and the next frame is searched from the same point |
| TrackerScenarios.EmptyFrameStops | DTC_/src/DTC/tools/tracker.java:135-137 | an empty frame ends the walk even when a later frame has a point in reach |
| TrackerScenarios.ClosestSingle | DTC_/src/DTC/tools/tracker.java:160-171 | in a frame of one point, that point is the nearest |
| TagFilter.IndexOfFrom | DTC_/src/DTC/tools/tracker.java:230 | the search from an index gives -1 when the marker occurs nowhere from there, and otherwise its first occurrence from there |
| TagFilter.IndexOf | DTC_/src/DTC/tools/tracker.java:230-238 | no contract of its own: Java's `indexOf` from the start (also lines 264-272); `TagFilter.IndexOfFrom` and `TagFilter.IndexOfSpec` carry its properties |
| TagFilter.IndexOfSpec | DTC_/src/DTC/tools/tracker.java:230 | `indexOf` is -1 if and only if the marker does not occur, and otherwise gives its first occurrence |
| TagFilter.RoiFilter | DTC_/src/DTC/tools/tracker.java:229-239 | no contract of its own: the ROI renderer's five rules, in their order; `TagFilter.RoiFilterIsIncluded` and `TagFilter.RenderersAgree` carry its properties |
| TagFilter.DoLog | DTC_/src/DTC/tools/tracker.java:263-273 | no contract of its own: the results table's five rules, in their order; `TagFilter.DoLogIsIncluded`, `TagFilter.KeywordRules` and `TagFilter.UnfilteredKeywords` carry its properties |
| TagFilter.RoiFilterIsIncluded | DTC_/src/DTC/tools/tracker.java:229-239 | the ROI renderer keeps a track's ROI, unchanged, exactly when the keyword's rule selects the track |
| TagFilter.DoLogIsIncluded | DTC_/src/DTC/tools/tracker.java:263-273 | the results table logs a track exactly when the keyword's rule selects the track |
| TagFilter.RenderersAgree | DTC_/src/DTC/tools/tracker.java:263-273 | both renderers output the same tracks for every tag and keyword |
| TagFilter.UnfilteredKeywords | DTC_/src/DTC/tools/tracker.java:263 | "All" and every keyword outside the five rules output every track |
| TagFilter.KeywordRules | DTC_/src/DTC/tools/tracker.java:264-272 | NonProxColoc selects tags with neither marker, Prox and Coloc the tags with that marker, ProxOnly and ColocOnly the tags with that marker and not the other |
| TagFilter.BothMarkers | DTC_/src/DTC/tools/tracker.java:264-272 | a tag holding both markers passes Prox and Coloc and fails NonProxColoc, ProxOnly and ColocOnly |
| TagFilter.MarkerInsideWord | DTC_/src/DTC/tools/tracker.java:266-272 | a marker inside a longer word counts: "Proximal" passes ProxOnly and fails ColocOnly |

## Left out

- Floating point: coordinates, distances and `maxDistance` are floats in the
  source and integers here. Distances are compared squared, so no square
  root is taken. Non-integer thresholds, rounding, NaN and infinities are not
  modelled.
- The `Float.MAX_VALUE` starting distance of the search is modelled as "no
  candidate yet". In the source a point whose float distance is `MAX_VALUE`
  or more (say at x = 10^39), or is NaN, never passes line 163. When every
  point of a frame is such a point, `getClosestPoint` returns `null` for a
  non-empty frame and line 136 ends the walk there. The model has no such
  distances: its search finds a point in every non-empty frame, and such a
  frame is passed over when the point is out of reach.
- TrackerProperties.ExtendStopsOnlyAtEmptyFrame: holds for the model's
  integer distances; in the source a non-empty frame whose distances are all
  `MAX_VALUE` or more, or NaN, also ends the walk (see the line above).
- The `(int)` casts of the float index on lines 124 and 133: the model keeps
  the index as an integer throughout.
- The result array of the search, `{index, minDist}`, is an `Option` of an
  index and a squared distance. The `null` for an empty series is `None`.
- `color`, `setColor` (lines 85-87) and the colour argument of
  `setParameters`: the colour only styles the output and has no effect on
  linking or filtering.
- The static fields are the fields of a `Parameters` object.
  `DoNearestNeighbor` takes the values of `maxDistance` and
  `minTrackedFrames` as arguments rather than reading shared state. `channel`
  is stored but only labels the outputs, which are not modelled.
- `sendTracksToRoiManager(PointSerie[])` (lines 181-203): ImageJ's ROI
  Manager, the polyline conversion, ROI names, positions and colours are user
  interface.
- The renderers' loops over channels and tracks, their `null` check, the ROI
  construction and naming, `toResultsTable` and `rt.show` (lines 210-228,
  241-262, 275-279): user interface. Only the filtering decision is
  modelled (lines 229-239 and 263-273).
- `Point` and `PointSerie` come from other files of the repository, which
  are not part of this model. `PointSerie` is modelled as a series holding a
  list of points, a tag and a name. The one-point constructor is taken to
  start with an empty tag and name. `clone` is taken as a copy: a fresh
  object that shares no state with the original. `getDistance` is taken to be the
  Euclidean distance between the two points' coordinates.
- Java arrays and `ArrayList`s are Dafny sequences of references. A `null`
  detection cell, which would make the source throw, cannot occur here.
- The parameters are not validated, in the source or in the model: a
  negative `maxDistance` admits no point, and a negative `minTrackedFrames`
  keeps every track.
