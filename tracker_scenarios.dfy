/** Small inputs worked through the linking functions: the distance gate at
    its boundary, a far frame passed over, and an empty frame ending a walk. */
module TrackerScenarios {
  import opened Wrappers
  import opened PointSerieModel
  import opened TrackerSpec

  lemma TrackOne()
    ensures TrackName(1) == "Track_1"
  {
    assert NatToString(1) == "1";
  }

  /** The walk of `ExactDistanceLinks`: the candidate at exactly
      `maxDistance` is taken and removed from its frame. */
  lemma ExactDistanceSeed(a: Point, b: Point)
    requires a == Point(0, 0, "a") && b == Point(3, 4, "b")
    ensures SeedGrowth([[a], [b]], 0, 0, 5) == Growth([[a], []], [a, b], "a\tb", [0, 1], 2)
  {
    var w := [[a], [b]];
    ClosestSingle(a, b);
    ExtendStep(w, 1, [a], "a", [0], 5);
    assert w[1 := RemoveAt(w[1], 0)] == [[a], []];
    assert [a] + [b] == [a, b] && "a" + "\t" + b.tag == "a\tb" && [0] + [1] == [0, 1];
  }

  /** Two points exactly `maxDistance` apart are linked. */
  lemma ExactDistanceLinks()
    ensures Link([[Point(0, 0, "a")], [Point(3, 4, "b")]], 5, 1)
         == [Serie([Point(0, 0, "a"), Point(3, 4, "b")], "a\tb", "Track_1")]
  {
    var a, b := Point(0, 0, "a"), Point(3, 4, "b");
    var w := [[a], [b]];
    var w' := [[a], []];
    ExactDistanceSeed(a, b);
    var g := SeedGrowth(w, 0, 0, 5);
    TrackOne();
    var kept := [Linked(Serie([a, b], "a\tb", "Track_1"), [0, 1])];
    assert Keep([], g, 1) == kept;
    assert SeedFrom(w, 0, 0, [], 5, 1) == Progress(w', kept);
    assert FrameFrom(w', 1, kept, 5, 1) == Progress(w', kept);
    assert Run(w, 5, 1).kept == kept;
  }

  /** In a frame of one point, that point is the nearest. */
  lemma ClosestSingle(p: Point, q: Point)
    ensures Closest(p, [q]) == Some(Nearest(0, SqDist(p, q)))
  {
    assert [q][..0] == [];
  }

  /** The walk of `FarFramePassedOver` from frame 2: the point there is
      within reach and is taken. */
  lemma FarFrameTake(a: Point, f: Point, b: Point)
    requires a == Point(0, 0, "a") && f == Point(9, 0, "f") && b == Point(1, 0, "b")
    ensures Extend([[a], [f], [b]], 2, [a], "a", [0], 1) == Growth([[a], [f], []], [a, b], "a\tb", [0, 2], 3)
  {
    var w := [[a], [f], [b]];
    ClosestSingle(a, b);
    ExtendStep(w, 2, [a], "a", [0], 1);
    assert w[2 := RemoveAt(w[2], 0)] == [[a], [f], []];
    assert [a] + [b] == [a, b] && "a" + "\t" + b.tag == "a\tb" && [0] + [2] == [0, 2];
  }

  /** The first track of `FarFramePassedOver`: frame 1 is passed over and
      the point of frame 2 is taken. */
  lemma FarFrameFirstSeed(a: Point, f: Point, b: Point)
    requires a == Point(0, 0, "a") && f == Point(9, 0, "f") && b == Point(1, 0, "b")
    ensures SeedGrowth([[a], [f], [b]], 0, 0, 1) == Growth([[a], [f], []], [a, b], "a\tb", [0, 2], 3)
  {
    ClosestSingle(a, f);
    ExtendStep([[a], [f], [b]], 1, [a], "a", [0], 1);
    FarFrameTake(a, f, b);
  }

  /** A frame whose nearest point is too far is passed over: the track goes
      on from the same point to the next frame, and the far point, left in
      its frame, seeds a track of its own that is too short to keep. */
  lemma FarFramePassedOver()
    ensures Link([[Point(0, 0, "a")], [Point(9, 0, "f")], [Point(1, 0, "b")]], 1, 1)
         == [Serie([Point(0, 0, "a"), Point(1, 0, "b")], "a\tb", "Track_1")]
  {
    var a, f, b := Point(0, 0, "a"), Point(9, 0, "f"), Point(1, 0, "b");
    var w := [[a], [f], [b]];
    var w' := [[a], [f], []];
    FarFrameFirstSeed(a, f, b);
    var g := SeedGrowth(w, 0, 0, 1);
    TrackOne();
    var kept := [Linked(Serie([a, b], "a\tb", "Track_1"), [0, 2])];
    assert Keep([], g, 1) == kept;
    assert SeedFrom(w, 0, 0, [], 1, 1) == Progress(w', kept);
    var g2 := SeedGrowth(w', 1, 0, 1);
    assert g2 == Growth(w', [f], "f", [1], 2);
    assert SeedFrom(w', 1, 0, kept, 1, 1) == Progress(w', kept);
    assert FrameFrom(w', 1, kept, 1, 1) == Progress(w', kept);
    assert Run(w, 1, 1).kept == kept;
  }

  /** An empty frame ends the walk, though a later frame holds a point that
      would be within reach. */
  lemma EmptyFrameStops()
    ensures Link([[Point(0, 0, "a")], [], [Point(0, 0, "b")]], 5, 0)
         == [Serie([Point(0, 0, "a")], "a", "Track_1")]
  {
    var a, b := Point(0, 0, "a"), Point(0, 0, "b");
    var w := [[a], [], [b]];
    var g := SeedGrowth(w, 0, 0, 5);
    assert g == Growth(w, [a], "a", [0], 1);
    TrackOne();
    var kept := [Linked(Serie([a], "a", "Track_1"), [0])];
    assert Keep([], g, 0) == kept;
    assert SeedFrom(w, 0, 1, kept, 5, 0) == Progress(w, kept);
    assert SeedFrom(w, 0, 0, [], 5, 0) == Progress(w, kept);
    assert SeedFrom(w, 1, 0, kept, 5, 0) == Progress(w, kept);
    assert FrameFrom(w, 2, kept, 5, 0) == Progress(w, kept);
    assert FrameFrom(w, 1, kept, 5, 0) == Progress(w, kept);
    assert Run(w, 5, 0).kept == kept;
  }

  /** The walk of `BeyondDistanceDoesNotLink`: the only candidate is too far,
      so the track passes it over and reaches the end with its seed alone. */
  lemma BeyondDistanceSeed(a: Point, b: Point)
    requires a == Point(0, 0, "a") && b == Point(6, 0, "b")
    ensures SeedGrowth([[a], [b]], 0, 0, 5) == Growth([[a], [b]], [a], "a", [0], 2)
  {
    ClosestSingle(a, b);
    ExtendStep([[a], [b]], 1, [a], "a", [0], 5);
  }

  /** Two points one pixel farther apart than `maxDistance` are not linked;
      the first point alone is kept as a track when `minTrackedFrames` is 0,
      and the point of the last frame seeds nothing. */
  lemma BeyondDistanceDoesNotLink()
    ensures Link([[Point(0, 0, "a")], [Point(6, 0, "b")]], 5, 0)
         == [Serie([Point(0, 0, "a")], "a", "Track_1")]
  {
    var a, b := Point(0, 0, "a"), Point(6, 0, "b");
    var w := [[a], [b]];
    BeyondDistanceSeed(a, b);
    var g := SeedGrowth(w, 0, 0, 5);
    TrackOne();
    var kept := [Linked(Serie([a], "a", "Track_1"), [0])];
    assert Keep([], g, 0) == kept;
    assert SeedFrom(w, 0, 0, [], 5, 0) == Progress(w, kept);
    assert FrameFrom(w, 1, kept, 5, 0) == Progress(w, kept);
    assert Run(w, 5, 0).kept == kept;
  }
}
