/** The nearest-neighbour linking algorithm as functions on values.

    `Closest` is the nearest-point search, `Extend` the forward walk of one
    track through the later frames, `SeedFrom` the walk over the points of one
    frame and `FrameFrom` the walk over the frames.  Each function mirrors one
    loop of the tracker and takes that loop's state as parameters, so the
    imperative tracker can be proved equal to `Link`.  What the result of
    `Link` is (long enough, consecutively named, correctly tagged, chained
    within the distance gate, in increasing frame order, never using a
    detection twice) is proved in `TrackerProperties`. */
module TrackerSpec {
  import opened Wrappers
  import opened PointSerieModel

  function Last<T>(s: seq<T>): T
    requires |s| > 0
  {
    s[|s| - 1]
  }

  // ---------------------------------------------------------------------
  // Nearest-point search
  // ---------------------------------------------------------------------

  /** Outcome of a nearest-point search: the chosen index and its squared
      distance to the reference point. */
  datatype Nearest = Nearest(index: nat, dist: nat)

  /** `n` names the first point of `s` at minimum distance from `p`. */
  predicate IsFirstNearest(p: Point, s: seq<Point>, n: Nearest)
  {
    && n.index < |s|
    && n.dist == SqDist(p, s[n.index])
    && (forall m :: 0 <= m < |s| ==> n.dist <= SqDist(p, s[m]))
    && (forall m :: 0 <= m < n.index ==> n.dist < SqDist(p, s[m]))
  }

  /** Linear scan from the front keeping the best candidate so far and
      replacing it only on a strictly smaller distance. */
  function Closest(p: Point, s: seq<Point>): (r: Option<Nearest>)
    ensures r.None? <==> |s| == 0
    ensures r.Some? ==> IsFirstNearest(p, s, r.value)
  {
    if |s| == 0 then None
    else
      var d := SqDist(p, Last(s));
      match Closest(p, s[..|s| - 1])
      case None => Some(Nearest(|s| - 1, d))
      case Some(n) => if d < n.dist then Some(Nearest(|s| - 1, d)) else Some(n)
  }

  lemma FirstNearestUnique(p: Point, s: seq<Point>, n1: Nearest, n2: Nearest)
    requires IsFirstNearest(p, s, n1) && IsFirstNearest(p, s, n2)
    ensures n1 == n2
  {
  }

  /** The search finds exactly the first minimum, and nothing else. */
  lemma ClosestIsFirstNearest(p: Point, s: seq<Point>, n: Nearest)
    ensures Closest(p, s) == Some(n) <==> IsFirstNearest(p, s, n)
  {
    if IsFirstNearest(p, s, n) {
      FirstNearestUnique(p, s, n, Closest(p, s).value);
    }
  }

  // ---------------------------------------------------------------------
  // Track names and tags
  // ---------------------------------------------------------------------

  function Digit(d: nat): char
    requires d < 10
  {
    "0123456789"[d]
  }

  /** Decimal notation of `n`, as Java's string concatenation writes an int. */
  function NatToString(n: nat): (s: string)
    ensures |s| > 0
    ensures n >= 10 ==> |s| >= 2
  {
    if n < 10 then [Digit(n)] else NatToString(n / 10) + [Digit(n % 10)]
  }

  lemma {:induction false} NatToStringInjective(a: nat, b: nat)
    requires NatToString(a) == NatToString(b)
    ensures a == b
  {
    if a >= 10 && b >= 10 {
      var sa, sb := NatToString(a / 10), NatToString(b / 10);
      assert NatToString(a) == sa + [Digit(a % 10)];
      assert NatToString(b) == sb + [Digit(b % 10)];
      assert sa == NatToString(a)[..|NatToString(a)| - 1];
      assert sb == NatToString(b)[..|NatToString(b)| - 1];
      NatToStringInjective(a / 10, b / 10);
      assert Digit(a % 10) == Digit(b % 10);
    }
  }

  function TrackName(n: nat): string
  {
    "Track_" + NatToString(n)
  }

  lemma TrackNameInjective(a: nat, b: nat)
    requires TrackName(a) == TrackName(b)
    ensures a == b
  {
    assert NatToString(a) == TrackName(a)[6..];
    assert NatToString(b) == TrackName(b)[6..];
    NatToStringInjective(a, b);
  }

  /** The tag of a track holding `points`: the first point's tag, then a tab
      and the next point's tag for every further point, in order. */
  function JoinTags(points: seq<Point>): string
    requires |points| > 0
  {
    if |points| == 1 then points[0].tag
    else JoinTags(points[..|points| - 1]) + "\t" + Last(points).tag
  }

  // ---------------------------------------------------------------------
  // The linking loops
  // ---------------------------------------------------------------------

  /** State of one track's forward walk when it stops: the working frames,
      the track's points, its tag, the frame index each point came from and
      the frame index at which the walk ended (the number of frames when it
      ran to the end, an empty frame otherwise). */
  datatype Growth = Growth(frames: seq<seq<Point>>, points: seq<Point>, tag: string,
                           origins: seq<nat>, reached: nat)

  /** Walks forward from frame `k`.  An empty frame ends the walk.  Otherwise
      the nearest point to the track's last point is taken (and removed from
      its frame) when it is within `maxDistance`; when it is farther, the
      frame is passed over and the next frame is tried from the same point. */
  function Extend(w: seq<seq<Point>>, k: nat, points: seq<Point>, tag: string,
                  origins: seq<nat>, maxDistance: int): (g: Growth)
    requires |points| > 0
    ensures |g.frames| == |w|
    ensures forall f :: 0 <= f < k && f < |w| ==> g.frames[f] == w[f]
    decreases |w| - k
  {
    if k >= |w| then Growth(w, points, tag, origins, k)
    else
      match Closest(Last(points), w[k])
      case None => Growth(w, points, tag, origins, k)
      case Some(n) =>
        if Within(n.dist, maxDistance) then
          var q := w[k][n.index];
          Extend(w[k := RemoveAt(w[k], n.index)], k + 1, points + [q],
                 tag + "\t" + q.tag, origins + [k], maxDistance)
        else
          Extend(w, k + 1, points, tag, origins, maxDistance)
  }

  /** Unfolds one step of the walk at a non-empty frame `k`. */
  lemma ExtendStep(w: seq<seq<Point>>, k: nat, points: seq<Point>, tag: string,
                   origins: seq<nat>, maxDistance: int)
    requires |points| > 0 && k < |w| && Closest(Last(points), w[k]).Some?
    ensures var n := Closest(Last(points), w[k]).value;
      var q := w[k][n.index];
      Extend(w, k, points, tag, origins, maxDistance)
        == if Within(n.dist, maxDistance)
           then Extend(w[k := RemoveAt(w[k], n.index)], k + 1, points + [q], tag + "\t" + q.tag,
                       origins + [k], maxDistance)
           else Extend(w, k + 1, points, tag, origins, maxDistance)
  {
  }

  /** A track kept in the result, with the frame index of each of its points. */
  datatype Linked = Linked(track: Serie, origins: seq<nat>)

  datatype Progress = Progress(frames: seq<seq<Point>>, kept: seq<Linked>)

  /** Appends the finished track when it has strictly more than
      `minTrackedFrames` points, naming it after its place in the result. */
  function Keep(kept: seq<Linked>, g: Growth, minTrackedFrames: int): seq<Linked>
  {
    if |g.points| > minTrackedFrames then
      kept + [Linked(Serie(g.points, g.tag, TrackName(|kept| + 1)), g.origins)]
    else kept
  }

  /** The seed track started from point `j` of frame `i`. */
  function SeedGrowth(w: seq<seq<Point>>, i: nat, j: nat, maxDistance: int): Growth
    requires i < |w| && j < |w[i]|
  {
    Extend(w, i + 1, [w[i][j]], w[i][j].tag, [i], maxDistance)
  }

  /** Seeds a track from every point of frame `i` from index `j` on. */
  function SeedFrom(w: seq<seq<Point>>, i: nat, j: nat, kept: seq<Linked>,
                    maxDistance: int, minTrackedFrames: int): (r: Progress)
    requires i < |w|
    ensures |r.frames| == |w|
    ensures forall f :: 0 <= f <= i ==> r.frames[f] == w[f]
    decreases |w[i]| - j
  {
    if j >= |w[i]| then Progress(w, kept)
    else
      var g := SeedGrowth(w, i, j, maxDistance);
      SeedFrom(g.frames, i, j + 1, Keep(kept, g, minTrackedFrames), maxDistance, minTrackedFrames)
  }

  /** Seeds tracks from every frame from `i` on except the last one. */
  function FrameFrom(w: seq<seq<Point>>, i: nat, kept: seq<Linked>,
                     maxDistance: int, minTrackedFrames: int): (r: Progress)
    ensures |r.frames| == |w|
    decreases |w| - i
  {
    if i + 1 < |w| then
      var s := SeedFrom(w, i, 0, kept, maxDistance, minTrackedFrames);
      FrameFrom(s.frames, i + 1, s.kept, maxDistance, minTrackedFrames)
    else Progress(w, kept)
  }

  function Run(w: seq<seq<Point>>, maxDistance: int, minTrackedFrames: int): Progress
  {
    FrameFrom(w, 0, [], maxDistance, minTrackedFrames)
  }

  /** The tracks linked from the frames `w`, in discovery order. */
  function Link(w: seq<seq<Point>>, maxDistance: int, minTrackedFrames: int): seq<Serie>
  {
    var kept := Run(w, maxDistance, minTrackedFrames).kept;
    seq(|kept|, t requires 0 <= t < |kept| => kept[t].track)
  }
}
