/** Points and point series: the data the tracker links.

    A point is a detection with pixel coordinates and a free-form provenance
    tag.  Coordinates are integers here and distances are compared squared, so
    no floating point is involved.  A `PointSerie` is a mutable, ordered list
    of points with a name and an aggregate tag; the tracker uses it both for the
    points of one frame and for one track. */
module PointSerieModel {

  datatype Point = Point(x: int, y: int, tag: string)

  /** Squared Euclidean distance between two points. */
  function SqDist(p: Point, q: Point): nat
  {
    var dx := p.x - q.x;
    var dy := p.y - q.y;
    dx * dx + dy * dy
  }

  /** `sqrt(d2) <= maxDistance` for a squared distance `d2`, without roots:
      a negative threshold admits nothing, a non-negative one admits exactly
      the squared distances up to its square. */
  predicate Within(d2: nat, maxDistance: int)
  {
    0 <= maxDistance && d2 <= maxDistance * maxDistance
  }

  /** The value held by a point series at one moment. */
  datatype Serie = Serie(points: seq<Point>, tag: string, name: string)

  /** `s` with the element at `i` removed; later elements shift down by one. */
  function RemoveAt<T>(s: seq<T>, i: nat): (r: seq<T>)
    requires i < |s|
    ensures |r| == |s| - 1
    ensures forall m :: 0 <= m < i ==> r[m] == s[m]
    ensures forall m :: i <= m < |r| ==> r[m] == s[m + 1]
    ensures multiset(r) + multiset{s[i]} == multiset(s)
  {
    assert s == s[..i] + [s[i]] + s[i + 1..];
    s[..i] + s[i + 1..]
  }

  class PointSerie {
    var points: seq<Point>
    var tag: string
    var name: string

    /** A series holding the single point `p`.  The series' own tag and name
        start empty; the tracker sets both explicitly. */
    constructor (p: Point)
      ensures points == [p] && tag == "" && name == ""
    {
      points := [p];
      tag := "";
      name := "";
    }

    /** A series holding what `other` holds. */
    constructor CopyOf(other: PointSerie)
      ensures Value() == other.Value()
    {
      points := other.points;
      tag := other.tag;
      name := other.name;
    }

    function Value(): Serie
      reads this
    {
      Serie(points, tag, name)
    }

    function GetNPoints(): nat
      reads this
    {
      |points|
    }

    function GetPoint(i: nat): Point
      reads this
      requires i < |points|
    {
      points[i]
    }

    method Add(p: Point)
      modifies this
      ensures points == old(points) + [p]
      ensures tag == old(tag) && name == old(name)
    {
      points := points + [p];
    }

    /** Removes the point at index `i`; the points after it shift down. */
    method Remove(i: nat)
      requires i < |points|
      modifies this
      ensures points == RemoveAt(old(points), i)
      ensures |points| == |old(points)| - 1
      ensures tag == old(tag) && name == old(name)
    {
      points := RemoveAt(points, i);
    }

    method SetTag(t: string)
      modifies this
      ensures tag == t && points == old(points) && name == old(name)
    {
      tag := t;
    }

    method SetName(n: string)
      modifies this
      ensures name == n && points == old(points) && tag == old(tag)
    {
      name := n;
    }

    /** An independent copy: a fresh series holding the same points, tag and
        name, so that changing one never changes the other. */
    method Clone() returns (c: PointSerie)
      ensures fresh(c)
      ensures c.Value() == Value()
    {
      c := new PointSerie.CopyOf(this);
    }
  }
}
