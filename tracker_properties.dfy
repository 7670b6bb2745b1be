/** What the linking functions guarantee.

    The lemmas about `Extend` are stated in accumulator form: whatever holds of
    the track so far still holds when the walk stops.  The lemmas about
    `SeedFrom` and `FrameFrom` carry the invariants of the two seeding loops.
    The theorems at the end are about `Run` and `Link` on any input. */
module TrackerProperties {
  import opened PointSerieModel
  import opened TrackerSpec

  /** Frame indices in strictly increasing order. */
  predicate Increasing(o: seq<nat>)
  {
    forall a, b :: 0 <= a < b < |o| ==> o[a] < o[b]
  }

  /** Every two consecutive points are within `maxDistance` of each other. */
  predicate Chained(points: seq<Point>, maxDistance: int)
  {
    forall m :: 0 <= m < |points| - 1 ==> Within(SqDist(points[m], points[m + 1]), maxDistance)
  }

  /** The points of `points` that came from frame `f`, according to the
      frame index in the same position of `origins`. */
  function Picked(points: seq<Point>, origins: seq<nat>, f: nat): multiset<Point>
    requires |points| == |origins|
  {
    if |points| == 0 then multiset{}
    else
      Picked(points[..|points| - 1], origins[..|origins| - 1], f)
        + (if Last(origins) == f then multiset{Last(points)} else multiset{})
  }

  /** The points that the tracks in `kept` took from frame `f`. */
  function Claimed(kept: seq<Linked>, f: nat): multiset<Point>
  {
    if |kept| == 0 then multiset{}
    else
      var l := Last(kept);
      Claimed(kept[..|kept| - 1], f)
        + (if |l.track.points| == |l.origins| then Picked(l.track.points, l.origins, f) else multiset{})
  }

  /** The frame a kept track was seeded from. */
  function SeedFrame(l: Linked): nat
  {
    if |l.origins| > 0 then l.origins[0] else 0
  }

  // ---------------------------------------------------------------------
  // One forward walk
  // ---------------------------------------------------------------------

  lemma JoinTagsAppend(points: seq<Point>, q: Point)
    requires |points| > 0
    ensures JoinTags(points + [q]) == JoinTags(points) + "\t" + q.tag
  {
    assert (points + [q])[..|points|] == points;
  }

  /** The walk stops at a frame between its start and the end. */
  lemma {:induction false} ExtendReached(w: seq<seq<Point>>, k: nat, points: seq<Point>, tag: string,
                                         origins: seq<nat>, maxDistance: int)
    requires |points| > 0 && k <= |w|
    ensures k <= Extend(w, k, points, tag, origins, maxDistance).reached <= |w|
    decreases |w| - k
  {
    if k < |w| {
      match Closest(Last(points), w[k]) {
        case None =>
        case Some(n) =>
          if Within(n.dist, maxDistance) {
            var q := w[k][n.index];
            ExtendReached(w[k := RemoveAt(w[k], n.index)], k + 1, points + [q], tag + "\t" + q.tag,
                          origins + [k], maxDistance);
          } else {
            ExtendReached(w, k + 1, points, tag, origins, maxDistance);
          }
      }
    }
  }

  /** The walk only appends to the track, and appends points from strictly
      later frames, all before the frame where it stopped. */
  lemma {:induction false} ExtendOrigins(w: seq<seq<Point>>, k: nat, points: seq<Point>, tag: string,
                                         origins: seq<nat>, maxDistance: int)
    requires |points| > 0 && |points| == |origins|
    requires k <= |w|
    ensures var g := Extend(w, k, points, tag, origins, maxDistance);
      && |g.points| == |g.origins| >= |points|
      && g.points[..|points|] == points
      && g.origins[..|origins|] == origins
      && k <= g.reached <= |w|
      && (forall m :: |origins| <= m < |g.origins| ==> k <= g.origins[m] < g.reached)
    decreases |w| - k
  {
    ExtendReached(w, k, points, tag, origins, maxDistance);
    if k < |w| && Closest(Last(points), w[k]).Some? {
      var n := Closest(Last(points), w[k]).value;
      var q := w[k][n.index];
      ExtendStep(w, k, points, tag, origins, maxDistance);
      if Within(n.dist, maxDistance) {
        var w', points', origins' := w[k := RemoveAt(w[k], n.index)], points + [q], origins + [k];
        ExtendOrigins(w', k + 1, points', tag + "\t" + q.tag, origins', maxDistance);
        var g := Extend(w', k + 1, points', tag + "\t" + q.tag, origins', maxDistance);
        assert g.points[..|points|] == g.points[..|points'|][..|points|];
        assert g.origins[..|origins|] == g.origins[..|origins'|][..|origins|];
        assert g.origins[|origins|] == g.origins[..|origins'|][|origins|] == k;
      } else {
        ExtendOrigins(w, k + 1, points, tag, origins, maxDistance);
      }
    }
  }

  /** The track's tag stays the joined tags of its points, consecutive points
      stay within the gate, and the frame indices stay increasing. */
  lemma {:induction false} ExtendShape(w: seq<seq<Point>>, k: nat, points: seq<Point>, tag: string,
                                       origins: seq<nat>, maxDistance: int)
    requires |points| > 0 && |points| == |origins|
    requires k <= |w|
    requires tag == JoinTags(points)
    requires Chained(points, maxDistance)
    requires Increasing(origins)
    requires forall m :: 0 <= m < |origins| ==> origins[m] < k
    ensures var g := Extend(w, k, points, tag, origins, maxDistance);
      && |g.points| == |g.origins| > 0
      && g.tag == JoinTags(g.points)
      && Chained(g.points, maxDistance)
      && Increasing(g.origins)
    decreases |w| - k
  {
    ExtendOrigins(w, k, points, tag, origins, maxDistance);
    if k < |w| && Closest(Last(points), w[k]).Some? {
      var n := Closest(Last(points), w[k]).value;
      var q := w[k][n.index];
      ExtendStep(w, k, points, tag, origins, maxDistance);
      if Within(n.dist, maxDistance) {
        var points', origins' := points + [q], origins + [k];
        JoinTagsAppend(points, q);
        assert Chained(points', maxDistance) by {
          forall m | 0 <= m < |points'| - 1
            ensures Within(SqDist(points'[m], points'[m + 1]), maxDistance)
          {
            if m < |points| - 1 {
              assert points'[m] == points[m] && points'[m + 1] == points[m + 1];
            }
          }
        }
        assert Increasing(origins');
        ExtendShape(w[k := RemoveAt(w[k], n.index)], k + 1, points', tag + "\t" + q.tag,
                    origins', maxDistance);
      } else {
        ExtendShape(w, k + 1, points, tag, origins, maxDistance);
      }
    }
  }

  /** The walk ends either past the last frame or at a frame that was empty;
      a frame whose nearest point is too far never ends it. */
  lemma {:induction false} ExtendStopsOnlyAtEmptyFrame(w: seq<seq<Point>>, k: nat, points: seq<Point>,
                                                       tag: string, origins: seq<nat>, maxDistance: int)
    requires |points| > 0 && k <= |w|
    ensures var g := Extend(w, k, points, tag, origins, maxDistance);
      g.reached == |w| || (k <= g.reached < |w| && w[g.reached] == [] && g.frames[g.reached] == [])
    decreases |w| - k
  {
    if k < |w| {
      match Closest(Last(points), w[k]) {
        case None =>
        case Some(n) =>
          if Within(n.dist, maxDistance) {
            var q := w[k][n.index];
            ExtendStopsOnlyAtEmptyFrame(w[k := RemoveAt(w[k], n.index)], k + 1, points + [q],
                                        tag + "\t" + q.tag, origins + [k], maxDistance);
          } else {
            ExtendStopsOnlyAtEmptyFrame(w, k + 1, points, tag, origins, maxDistance);
          }
      }
    }
  }

  /** A frame the walk took no point from is left exactly as it was: in
      particular a frame passed over because its nearest point was too far. */
  lemma {:induction false} ExtendLeavesUnusedFrames(w: seq<seq<Point>>, k: nat, points: seq<Point>,
                                                    tag: string, origins: seq<nat>, maxDistance: int,
                                                    f: nat)
    requires |points| > 0 && |points| == |origins| && f < |w|
    ensures var g := Extend(w, k, points, tag, origins, maxDistance);
      |g.origins| >= |origins| &&
      ((forall m :: |origins| <= m < |g.origins| ==> g.origins[m] != f) ==> g.frames[f] == w[f])
    decreases |w| - k
  {
    if k < |w| {
      match Closest(Last(points), w[k]) {
        case None =>
        case Some(n) =>
          if Within(n.dist, maxDistance) {
            var q := w[k][n.index];
            ExtendLeavesUnusedFrames(w[k := RemoveAt(w[k], n.index)], k + 1, points + [q],
                                     tag + "\t" + q.tag, origins + [k], maxDistance, f);
            var g := Extend(w[k := RemoveAt(w[k], n.index)], k + 1, points + [q],
                            tag + "\t" + q.tag, origins + [k], maxDistance);
            if forall m :: |origins| <= m < |g.origins| ==> g.origins[m] != f {
              assert g.origins[|origins|] != f;
            }
            ExtendIsPrefix(w[k := RemoveAt(w[k], n.index)], k + 1, points + [q],
                           tag + "\t" + q.tag, origins + [k], maxDistance);
          } else {
            ExtendLeavesUnusedFrames(w, k + 1, points, tag, origins, maxDistance, f);
          }
      }
    }
  }

  /** The walk only ever appends to the track's frame indices. */
  lemma {:induction false} ExtendIsPrefix(w: seq<seq<Point>>, k: nat, points: seq<Point>,
                                          tag: string, origins: seq<nat>, maxDistance: int)
    requires |points| > 0
    ensures var g := Extend(w, k, points, tag, origins, maxDistance);
      |g.origins| >= |origins| && g.origins[..|origins|] == origins
      && |g.points| - |points| == |g.origins| - |origins|
    decreases |w| - k
  {
    if k < |w| {
      match Closest(Last(points), w[k]) {
        case None =>
        case Some(n) =>
          if Within(n.dist, maxDistance) {
            var q := w[k][n.index];
            ExtendIsPrefix(w[k := RemoveAt(w[k], n.index)], k + 1, points + [q],
                           tag + "\t" + q.tag, origins + [k], maxDistance);
            var g := Extend(w[k := RemoveAt(w[k], n.index)], k + 1, points + [q],
                            tag + "\t" + q.tag, origins + [k], maxDistance);
            assert g.origins[..|origins|] == g.origins[..|origins| + 1][..|origins|];
          } else {
            ExtendIsPrefix(w, k + 1, points, tag, origins, maxDistance);
          }
      }
    }
  }

  lemma PickedAppend(points: seq<Point>, origins: seq<nat>, q: Point, k: nat, f: nat)
    requires |points| == |origins|
    ensures Picked(points + [q], origins + [k], f)
         == Picked(points, origins, f) + (if k == f then multiset{q} else multiset{})
  {
    assert (points + [q])[..|points|] == points;
    assert (origins + [k])[..|origins|] == origins;
  }

  /** Frame `f` of `w`, with the points the track `points` took from it,
      holds what frame `f` of `g`'s frames holds with the points `g`'s track
      took from it. */
  predicate Conserved(w: seq<seq<Point>>, points: seq<Point>, origins: seq<nat>, g: Growth, f: nat)
    requires |points| == |origins| && f < |w|
  {
    && |g.points| == |g.origins| && |g.frames| == |w|
    && multiset(w[f]) + Picked(points, origins, f) == multiset(g.frames[f]) + Picked(g.points, g.origins, f)
  }

  /** Every point the walk appends is removed from the working frame it came
      from: per frame, what remains plus what the track holds is what there
      was before the walk. */
  lemma {:induction false} ExtendConserves(w: seq<seq<Point>>, k: nat, points: seq<Point>, tag: string,
                                           origins: seq<nat>, maxDistance: int, f: nat)
    requires |points| > 0 && |points| == |origins| && k <= |w| && f < |w|
    ensures Conserved(w, points, origins, Extend(w, k, points, tag, origins, maxDistance), f)
    decreases |w| - k
  {
    if k < |w| && Closest(Last(points), w[k]).Some? {
      var n := Closest(Last(points), w[k]).value;
      var q := w[k][n.index];
      ExtendStep(w, k, points, tag, origins, maxDistance);
      if Within(n.dist, maxDistance) {
        var w' := w[k := RemoveAt(w[k], n.index)];
        ExtendConserves(w', k + 1, points + [q], tag + "\t" + q.tag, origins + [k], maxDistance, f);
        PickedAppend(points, origins, q, k, f);
        var taken := if k == f then multiset{q} else multiset{};
        assert multiset(w'[f]) + taken == multiset(w[f]) by {
          if f == k {
            assert w'[f] == RemoveAt(w[k], n.index);
          } else {
            assert w'[f] == w[f];
          }
        }
        var g := Extend(w', k + 1, points + [q], tag + "\t" + q.tag, origins + [k], maxDistance);
        MultisetMove(multiset(w[f]), multiset(w'[f]), taken, Picked(points, origins, f),
                     Picked(points + [q], origins + [k], f),
                     multiset(g.frames[f]) + Picked(g.points, g.origins, f));
      } else {
        ExtendConserves(w, k + 1, points, tag, origins, maxDistance, f);
      }
    }
  }

  // ---------------------------------------------------------------------
  // The seeding loops: shape of the kept tracks
  // ---------------------------------------------------------------------

  /** A kept track at position `t` of the result, in a run over `nFrames`
      frames: longer than `minTrackedFrames`, named after its position,
      tagged with its points' tags, chained within the gate, with its points
      in strictly increasing frames. */
  predicate WellLinked(l: Linked, t: nat, nFrames: nat, maxDistance: int, minTrackedFrames: int)
  {
    && |l.track.points| == |l.origins| > 0
    && |l.track.points| > minTrackedFrames
    && l.track.name == TrackName(t + 1)
    && l.track.tag == JoinTags(l.track.points)
    && Chained(l.track.points, maxDistance)
    && Increasing(l.origins)
    && (forall m :: 0 <= m < |l.origins| ==> l.origins[m] < nFrames)
  }

  /** Every kept track is well formed and was seeded before frame `bound`,
      and the tracks are listed in the order of the frames they were seeded
      from. */
  predicate KeptInvariant(kept: seq<Linked>, nFrames: nat, maxDistance: int, minTrackedFrames: int,
                          bound: nat)
  {
    && (forall t :: 0 <= t < |kept| ==>
          WellLinked(kept[t], t, nFrames, maxDistance, minTrackedFrames) && SeedFrame(kept[t]) < bound)
    && (forall a, b :: 0 <= a < b < |kept| ==> SeedFrame(kept[a]) <= SeedFrame(kept[b]))
  }

  lemma {:induction false} SeedFromKeepsInvariant(w: seq<seq<Point>>, i: nat, j: nat, kept: seq<Linked>,
                                                  maxDistance: int, minTrackedFrames: int)
    requires i < |w|
    requires KeptInvariant(kept, |w|, maxDistance, minTrackedFrames, i + 1)
    ensures KeptInvariant(SeedFrom(w, i, j, kept, maxDistance, minTrackedFrames).kept,
                          |w|, maxDistance, minTrackedFrames, i + 1)
    decreases |w[i]| - j
  {
    if j < |w[i]| {
      var p := w[i][j];
      var g := SeedGrowth(w, i, j, maxDistance);
      ExtendShape(w, i + 1, [p], p.tag, [i], maxDistance);
      ExtendOrigins(w, i + 1, [p], p.tag, [i], maxDistance);
      assert g.origins[0] == g.origins[..1][0] == i;
      var kept' := Keep(kept, g, minTrackedFrames);
      assert KeptInvariant(kept', |w|, maxDistance, minTrackedFrames, i + 1) by {
        if |g.points| > minTrackedFrames {
          assert Last(kept') == Linked(Serie(g.points, g.tag, TrackName(|kept| + 1)), g.origins);
          assert SeedFrame(Last(kept')) == i;
        }
      }
      SeedFromKeepsInvariant(g.frames, i, j + 1, kept', maxDistance, minTrackedFrames);
    }
  }

  /** One pass of the loop over the frames keeps the invariant, with the
      bound moved on to the next frame. */
  lemma FrameStepKeepsInvariant(w: seq<seq<Point>>, i: nat, kept: seq<Linked>,
                                maxDistance: int, minTrackedFrames: int)
    requires i + 1 < |w|
    requires KeptInvariant(kept, |w|, maxDistance, minTrackedFrames, i)
    ensures var s := SeedFrom(w, i, 0, kept, maxDistance, minTrackedFrames);
      |s.frames| == |w| && KeptInvariant(s.kept, |s.frames|, maxDistance, minTrackedFrames, i + 1)
  {
    SeedFromKeepsInvariant(w, i, 0, kept, maxDistance, minTrackedFrames);
  }

  /** The frames the loop over the frames seeds from when it starts at
      frame `i` of `nFrames` frames are those below this bound. */
  function SeedBound(nFrames: nat, i: nat): nat
  {
    if i + 1 < nFrames then nFrames - 1 else i
  }

  lemma {:induction false} FrameFromKeepsInvariant(w: seq<seq<Point>>, i: nat, kept: seq<Linked>,
                                                   maxDistance: int, minTrackedFrames: int)
    requires KeptInvariant(kept, |w|, maxDistance, minTrackedFrames, i)
    ensures KeptInvariant(FrameFrom(w, i, kept, maxDistance, minTrackedFrames).kept, |w|,
                          maxDistance, minTrackedFrames, SeedBound(|w|, i))
    decreases |w| - i
  {
    if i + 1 < |w| {
      FrameStepKeepsInvariant(w, i, kept, maxDistance, minTrackedFrames);
      var s := SeedFrom(w, i, 0, kept, maxDistance, minTrackedFrames);
      assert SeedBound(|s.frames|, i + 1) == SeedBound(|w|, i);
      FrameFromKeepsInvariant(s.frames, i + 1, s.kept, maxDistance, minTrackedFrames);
    }
  }

  // ---------------------------------------------------------------------
  // Multiset arithmetic, argued element by element
  // ---------------------------------------------------------------------

  /** Moving `taken` from `before` (leaving `after`) into `held` (giving
      `held'`) keeps the total. */
  lemma MultisetMove<T>(before: multiset<T>, after: multiset<T>, taken: multiset<T>,
                        held: multiset<T>, held': multiset<T>, total: multiset<T>)
    requires after + taken == before && held' == held + taken && after + held' == total
    ensures before + held == total
  {
    forall o ensures (before + held)[o] == total[o] {
      assert (after + taken)[o] == after[o] + taken[o];
      assert (held + taken)[o] == held[o] + taken[o];
      assert (after + held')[o] == after[o] + held'[o];
    }
  }

  lemma MultisetCancel<T>(x: multiset<T>, a: multiset<T>, b: multiset<T>)
    requires x + a == x + b
    ensures a == b
  {
    forall o ensures a[o] == b[o] {
      assert (x + a)[o] == x[o] + a[o];
      assert (x + b)[o] == x[o] + b[o];
    }
  }

  /** Moving `p` from the remaining points `r + p` into the claimed points
      `c` (or dropping it) keeps the total within `d`. */
  lemma ClaimStep<T>(c: multiset<T>, r: multiset<T>, p: multiset<T>, d: multiset<T>, keep: bool)
    requires c + (r + p) <= d
    ensures (c + (if keep then p else multiset{})) + r <= d
  {
    forall o ensures ((c + (if keep then p else multiset{})) + r)[o] <= d[o] {
      assert (c + (r + p))[o] == c[o] + r[o] + p[o];
    }
  }

  lemma SubsetWeaken<T>(c: multiset<T>, r: multiset<T>, d: multiset<T>)
    requires c + r <= d
    ensures c <= d
  {
    forall o ensures c[o] <= d[o] {
      assert (c + r)[o] == c[o] + r[o];
    }
  }

  // ---------------------------------------------------------------------
  // The seeding loops: no detection is used twice
  // ---------------------------------------------------------------------

  lemma ClaimedKeep(kept: seq<Linked>, g: Growth, minTrackedFrames: int, f: nat)
    requires |g.points| == |g.origins|
    ensures Claimed(Keep(kept, g, minTrackedFrames), f)
         == Claimed(kept, f) + (if |g.points| > minTrackedFrames then Picked(g.points, g.origins, f)
                                else multiset{})
  {
    if |g.points| > minTrackedFrames {
      var kept' := Keep(kept, g, minTrackedFrames);
      assert kept'[..|kept|] == kept;
    }
  }

  lemma PickedSingle(p: Point, i: nat, f: nat)
    ensures Picked([p], [i], f) == if f == i then multiset{p} else multiset{}
  {
    assert [p][..0] == [] && [i][..0] == [];
  }

  /** What the seed track started from point `j` of frame `i` takes: the seed
      from frame `i`, nothing from earlier frames, and from every later frame
      exactly what it removed there. */
  lemma SeedGrowthPicks(w: seq<seq<Point>>, i: nat, j: nat, maxDistance: int, f: nat)
    requires i + 1 < |w| && j < |w[i]| && f < |w|
    ensures var g := SeedGrowth(w, i, j, maxDistance);
      && |g.points| == |g.origins|
      && (f <= i ==> Picked(g.points, g.origins, f) == if f == i then multiset{w[i][j]} else multiset{})
      && (i < f ==> multiset(w[f]) == multiset(g.frames[f]) + Picked(g.points, g.origins, f))
  {
    var p := w[i][j];
    var g := SeedGrowth(w, i, j, maxDistance);
    ExtendConserves(w, i + 1, [p], p.tag, [i], maxDistance, f);
    PickedSingle(p, i, f);
    if f <= i {
      assert g.frames[f] == w[f];
      MultisetCancel(multiset(w[f]), Picked([p], [i], f), Picked(g.points, g.origins, f));
    }
  }

  /** One iteration of the loop over the points of frame `i`, seen from one
      frame `f` whose input points are `input`: a later frame keeps "claimed
      plus remaining fits in the input", frame `i` gains at most its own seed,
      an earlier frame gains nothing. */
  lemma SeedStepAt(w: seq<seq<Point>>, i: nat, j: nat, kept: seq<Linked>,
                   maxDistance: int, minTrackedFrames: int, f: nat, input: multiset<Point>)
    requires i + 1 < |w| && j < |w[i]| && f < |w|
    requires i < f ==> Claimed(kept, f) + multiset(w[f]) <= input
    requires f == i ==> Claimed(kept, i) + multiset(w[i][j..]) <= input
    requires f < i ==> Claimed(kept, f) <= input
    ensures var g := SeedGrowth(w, i, j, maxDistance);
      var kept' := Keep(kept, g, minTrackedFrames);
      && (i < f ==> Claimed(kept', f) + multiset(g.frames[f]) <= input)
      && (f == i ==> Claimed(kept', i) + multiset(g.frames[i][j + 1..]) <= input)
      && (f < i ==> Claimed(kept', f) <= input)
  {
    var p := w[i][j];
    var g := SeedGrowth(w, i, j, maxDistance);
    var keep := |g.points| > minTrackedFrames;
    SeedGrowthPicks(w, i, j, maxDistance, f);
    ClaimedKeep(kept, g, minTrackedFrames, f);
    if i < f {
      ClaimStep(Claimed(kept, f), multiset(g.frames[f]), Picked(g.points, g.origins, f), input, keep);
    } else if f == i {
      assert g.frames[i] == w[i];
      assert w[i][j..] == [p] + w[i][j + 1..];
      assert multiset(w[i][j..]) == multiset(w[i][j + 1..]) + multiset{p};
      ClaimStep(Claimed(kept, i), multiset(w[i][j + 1..]), multiset{p}, input, keep);
    } else {
      assert Claimed(Keep(kept, g, minTrackedFrames), f) == Claimed(kept, f);
    }
  }

  /** Seeding from frame `i`, from point `j` on, keeps the same invariant and
      leaves every frame up to `i` with claims that fit in its input. */
  lemma {:induction false} SeedFromClaims(W: seq<seq<Point>>, w: seq<seq<Point>>, i: nat, j: nat,
                                          kept: seq<Linked>, maxDistance: int, minTrackedFrames: int)
    requires i + 1 < |w| && |w| == |W| && j <= |w[i]|
    requires forall f :: i < f < |W| ==> Claimed(kept, f) + multiset(w[f]) <= multiset(W[f])
    requires Claimed(kept, i) + multiset(w[i][j..]) <= multiset(W[i])
    requires forall f :: 0 <= f < i ==> Claimed(kept, f) <= multiset(W[f])
    ensures var r := SeedFrom(w, i, j, kept, maxDistance, minTrackedFrames);
      && |r.frames| == |W|
      && (forall f :: i < f < |W| ==> Claimed(r.kept, f) + multiset(r.frames[f]) <= multiset(W[f]))
      && (forall f :: 0 <= f <= i ==> Claimed(r.kept, f) <= multiset(W[f]))
    decreases |w[i]| - j
  {
    if j < |w[i]| {
      var g := SeedGrowth(w, i, j, maxDistance);
      forall f | 0 <= f < |W|
        ensures i < f ==> Claimed(Keep(kept, g, minTrackedFrames), f) + multiset(g.frames[f]) <= multiset(W[f])
        ensures f == i ==> Claimed(Keep(kept, g, minTrackedFrames), i) + multiset(g.frames[i][j + 1..])
                           <= multiset(W[i])
        ensures f < i ==> Claimed(Keep(kept, g, minTrackedFrames), f) <= multiset(W[f])
      {
        SeedStepAt(w, i, j, kept, maxDistance, minTrackedFrames, f, multiset(W[f]));
      }
      SeedFromClaims(W, g.frames, i, j + 1, Keep(kept, g, minTrackedFrames), maxDistance, minTrackedFrames);
    } else {
      assert w[i][j..] == [];
    }
  }

  /** The loop over the frames keeps its invariant across one frame. */
  lemma FrameStepClaims(W: seq<seq<Point>>, w: seq<seq<Point>>, i: nat,
                        kept: seq<Linked>, maxDistance: int, minTrackedFrames: int)
    requires i + 1 < |w| && |w| == |W|
    requires forall f :: i <= f < |W| ==> Claimed(kept, f) + multiset(w[f]) <= multiset(W[f])
    requires forall f :: 0 <= f < i ==> Claimed(kept, f) <= multiset(W[f])
    ensures var s := SeedFrom(w, i, 0, kept, maxDistance, minTrackedFrames);
      && |s.frames| == |W|
      && (forall f :: i + 1 <= f < |W| ==> Claimed(s.kept, f) + multiset(s.frames[f]) <= multiset(W[f]))
      && (forall f :: 0 <= f < i + 1 ==> Claimed(s.kept, f) <= multiset(W[f]))
  {
    assert w[i][0..] == w[i];
    SeedFromClaims(W, w, i, 0, kept, maxDistance, minTrackedFrames);
  }

  lemma {:induction false} FrameFromClaims(W: seq<seq<Point>>, w: seq<seq<Point>>, i: nat,
                                           kept: seq<Linked>, maxDistance: int, minTrackedFrames: int)
    requires |w| == |W|
    requires forall f :: i <= f < |W| ==> Claimed(kept, f) + multiset(w[f]) <= multiset(W[f])
    requires forall f :: 0 <= f < i && f < |W| ==> Claimed(kept, f) <= multiset(W[f])
    ensures forall f :: 0 <= f < |W| ==>
      Claimed(FrameFrom(w, i, kept, maxDistance, minTrackedFrames).kept, f) <= multiset(W[f])
    decreases |w| - i
  {
    var r := FrameFrom(w, i, kept, maxDistance, minTrackedFrames);
    if i + 1 < |w| {
      FrameStepClaims(W, w, i, kept, maxDistance, minTrackedFrames);
      var s := SeedFrom(w, i, 0, kept, maxDistance, minTrackedFrames);
      FrameFromClaims(W, s.frames, i + 1, s.kept, maxDistance, minTrackedFrames);
      assert r == FrameFrom(s.frames, i + 1, s.kept, maxDistance, minTrackedFrames);
    } else {
      assert r.kept == kept;
      forall f | 0 <= f < |W| ensures Claimed(kept, f) <= multiset(W[f]) {
        if i <= f {
          SubsetWeaken(Claimed(kept, f), multiset(w[f]), multiset(W[f]));
        }
      }
    }
  }

  /** The working frames after seeding from frame `i` do not depend on the
      tracks kept so far nor on `minTrackedFrames`: the points a seed track
      removed stay removed even when the track is too short to keep. */
  lemma {:induction false} SeedFromFramesIgnoreKeep(w: seq<seq<Point>>, i: nat, j: nat,
                                                    kept1: seq<Linked>, kept2: seq<Linked>, maxDistance: int,
                                                    minTrackedFrames1: int, minTrackedFrames2: int)
    requires i < |w|
    ensures SeedFrom(w, i, j, kept1, maxDistance, minTrackedFrames1).frames
         == SeedFrom(w, i, j, kept2, maxDistance, minTrackedFrames2).frames
    decreases |w[i]| - j
  {
    if j < |w[i]| {
      var g := SeedGrowth(w, i, j, maxDistance);
      SeedFromFramesIgnoreKeep(g.frames, i, j + 1, Keep(kept1, g, minTrackedFrames1),
                               Keep(kept2, g, minTrackedFrames2), maxDistance,
                               minTrackedFrames1, minTrackedFrames2);
    }
  }

  /** The same for the loop over the frames from `i` on. */
  lemma {:induction false} FrameFromFramesIgnoreKeep(w: seq<seq<Point>>, i: nat,
                                                     kept1: seq<Linked>, kept2: seq<Linked>, maxDistance: int,
                                                     minTrackedFrames1: int, minTrackedFrames2: int)
    ensures FrameFrom(w, i, kept1, maxDistance, minTrackedFrames1).frames
         == FrameFrom(w, i, kept2, maxDistance, minTrackedFrames2).frames
    decreases |w| - i
  {
    if i + 1 < |w| {
      SeedFromFramesIgnoreKeep(w, i, 0, kept1, kept2, maxDistance, minTrackedFrames1, minTrackedFrames2);
      var s1 := SeedFrom(w, i, 0, kept1, maxDistance, minTrackedFrames1);
      var s2 := SeedFrom(w, i, 0, kept2, maxDistance, minTrackedFrames2);
      FrameFromFramesIgnoreKeep(s1.frames, i + 1, s1.kept, s2.kept, maxDistance,
                                minTrackedFrames1, minTrackedFrames2);
    }
  }

  // ---------------------------------------------------------------------
  // Theorems about the whole run
  // ---------------------------------------------------------------------

  /** Every kept track is well formed and was seeded from a frame other than
      the last one; the tracks are in the order of their seed frames. */
  lemma RunKeptWellFormed(w: seq<seq<Point>>, maxDistance: int, minTrackedFrames: int)
    ensures var kept := Run(w, maxDistance, minTrackedFrames).kept;
      KeptInvariant(kept, |w|, maxDistance, minTrackedFrames, SeedBound(|w|, 0))
  {
    FrameFromKeepsInvariant(w, 0, [], maxDistance, minTrackedFrames);
  }

  /** No detection ends up in two kept tracks: for every frame, the points the
      kept tracks hold from it, counted with multiplicity, are among that
      frame's input points. */
  lemma RunNoDoubleClaim(w: seq<seq<Point>>, maxDistance: int, minTrackedFrames: int, f: nat)
    requires f < |w|
    ensures Claimed(Run(w, maxDistance, minTrackedFrames).kept, f) <= multiset(w[f])
  {
    FrameFromClaims(w, w, 0, [], maxDistance, minTrackedFrames);
  }

  /** A track seeded from frame `s` holds at most `|w| - s` points, one per
      frame from `s` on. */
  lemma {:induction false} IncreasingBound(o: seq<nat>, n: nat)
    requires |o| > 0 && Increasing(o)
    requires forall m :: 0 <= m < |o| ==> o[m] < n
    ensures |o| <= n - o[0]
  {
    if |o| > 1 {
      IncreasingBound(o[1..], n);
      assert o[1..][0] == o[1] > o[0];
    }
  }

  lemma LinkTracksLongEnough(w: seq<seq<Point>>, maxDistance: int, minTrackedFrames: int)
    ensures forall t :: 0 <= t < |Link(w, maxDistance, minTrackedFrames)| ==>
      |Link(w, maxDistance, minTrackedFrames)[t].points| > minTrackedFrames
  {
    RunKeptWellFormed(w, maxDistance, minTrackedFrames);
  }

  /** The tracks are named Track_1, Track_2, ... in order, and no two share a
      name. */
  lemma LinkTrackNames(w: seq<seq<Point>>, maxDistance: int, minTrackedFrames: int)
    ensures var tracks := Link(w, maxDistance, minTrackedFrames);
      && (forall t :: 0 <= t < |tracks| ==> tracks[t].name == TrackName(t + 1))
      && (forall a, b :: 0 <= a < b < |tracks| ==> tracks[a].name != tracks[b].name)
  {
    var tracks := Link(w, maxDistance, minTrackedFrames);
    RunKeptWellFormed(w, maxDistance, minTrackedFrames);
    forall a, b | 0 <= a < b < |tracks| ensures tracks[a].name != tracks[b].name {
      if tracks[a].name == tracks[b].name {
        TrackNameInjective(a + 1, b + 1);
      }
    }
  }

  lemma LinkTrackTags(w: seq<seq<Point>>, maxDistance: int, minTrackedFrames: int)
    ensures var tracks := Link(w, maxDistance, minTrackedFrames);
      forall t :: 0 <= t < |tracks| ==> |tracks[t].points| > 0 && tracks[t].tag == JoinTags(tracks[t].points)
  {
    RunKeptWellFormed(w, maxDistance, minTrackedFrames);
  }

  lemma LinkTracksChained(w: seq<seq<Point>>, maxDistance: int, minTrackedFrames: int)
    ensures var tracks := Link(w, maxDistance, minTrackedFrames);
      forall t :: 0 <= t < |tracks| ==> Chained(tracks[t].points, maxDistance)
  {
    RunKeptWellFormed(w, maxDistance, minTrackedFrames);
  }

  /** The points of a kept track come from strictly increasing frames, the
      first of them a frame other than the last; so a track seeded from frame
      `s` has at most `|w| - s` points. */
  lemma RunTrackFrames(w: seq<seq<Point>>, maxDistance: int, minTrackedFrames: int, t: nat)
    requires t < |Run(w, maxDistance, minTrackedFrames).kept|
    ensures var l := Run(w, maxDistance, minTrackedFrames).kept[t];
      && |l.origins| == |l.track.points| > 0
      && Increasing(l.origins)
      && l.origins[0] + 1 < |w|
      && (forall m :: 0 <= m < |l.origins| ==> l.origins[m] < |w|)
      && |l.track.points| <= |w| - l.origins[0]
  {
    RunKeptWellFormed(w, maxDistance, minTrackedFrames);
    var l := Run(w, maxDistance, minTrackedFrames).kept[t];
    IncreasingBound(l.origins, |w|);
  }

  /** With fewer than two frames nothing is linked: the last frame never
      seeds a track. */
  lemma LinkNeedsTwoFrames(w: seq<seq<Point>>, maxDistance: int, minTrackedFrames: int)
    requires |w| < 2
    ensures Link(w, maxDistance, minTrackedFrames) == []
  {
    RunKeptWellFormed(w, maxDistance, minTrackedFrames);
  }

  /** The points left in the working frames after the run are the same
      whatever `minTrackedFrames` is: discarding a short track gives none of
      its points back. */
  lemma RunFramesIgnoreLengthFilter(w: seq<seq<Point>>, maxDistance: int,
                                    minTrackedFrames1: int, minTrackedFrames2: int)
    ensures Run(w, maxDistance, minTrackedFrames1).frames == Run(w, maxDistance, minTrackedFrames2).frames
  {
    FrameFromFramesIgnoreKeep(w, 0, [], [], maxDistance, minTrackedFrames1, minTrackedFrames2);
  }
}
