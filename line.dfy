/**
 * line.py: an ordered list of coordinates and its well-known-text (WKT)
 * coordinate list.
 *
 * Coordinates are kept as reals; the `{:f}` formatting of one number is
 * the parameter `fmt`, about which nothing is assumed beyond what a lemma
 * says it requires.
 */
module Lines {
  import opened Text

  /** A stored point: `addPoint(lat, lng)` keeps the pair as `(lng, lat)`. */
  datatype Point = Point(lng: real, lat: real)

  /** `"{:f} {:f}".format(*point)`: longitude first, then latitude. */
  function Entry(p: Point, fmt: real -> string): string {
    fmt(p.lng) + " " + fmt(p.lat)
  }

  /** The entry of each point, in order. */
  function Entries(points: seq<Point>, fmt: real -> string): (r: seq<string>)
    ensures |r| == |points|
    ensures forall i :: 0 <= i < |points| ==> r[i] == Entry(points[i], fmt)
  {
    seq(|points|, i requires 0 <= i < |points| => Entry(points[i], fmt))
  }

  /** `getWKT()`: the entries joined by "," inside one pair of parentheses. */
  function PointsWkt(points: seq<Point>, fmt: real -> string): string {
    "(" + Join(Entries(points, fmt), ",") + ")"
  }

  /** A formatter whose numbers never contain the character `c`. */
  ghost predicate Avoids(fmt: real -> string, c: char) {
    forall x :: c !in fmt(x)
  }

  class Line {
    var points: seq<Point>

    /** `Line()`: no points yet. */
    constructor()
      ensures points == []
    {
      points := [];
    }

    /** `addPoint(lat, lng)`: one more point at the end, stored longitude first. */
    method AddPoint(lat: real, lng: real)
      modifies this
      ensures points == old(points) + [Point(lng, lat)]
    {
      points := points + [Point(lng, lat)];
    }

    /** `getWKT()` of the points as they are now. */
    function Wkt(fmt: real -> string): string
      reads this
    {
      PointsWkt(points, fmt)
    }
  }

  /** The part of a WKT coordinate list between its parentheses. */
  function Inner(wkt: string): string
    requires |wkt| >= 2
  {
    wkt[1..|wkt| - 1]
  }

  /** A line without points is written `()`. */
  lemma EmptyWkt(fmt: real -> string)
    ensures PointsWkt([], fmt) == "()"
  {
    assert Entries([], fmt) == [];
  }

  /**
   * The text reads back as the entries: between the parentheses, splitting
   * at "," gives one entry per point in insertion order, as long as the
   * formatted numbers hold no ",".
   */
  lemma WktEntries(points: seq<Point>, fmt: real -> string)
    requires points != [] && Avoids(fmt, ',')
    ensures var w := PointsWkt(points, fmt);
      |w| >= 2 && w[0] == '(' && w[|w| - 1] == ')'
      && Split(Inner(w), ',') == Entries(points, fmt)
  {
    var es := Entries(points, fmt);
    var w := PointsWkt(points, fmt);
    assert Inner(w) == Join(es, ",");
    forall i | 0 <= i < |es|
      ensures ',' !in es[i]
    {
      EntryAvoids(points[i], fmt, ',');
    }
    SplitJoin(es, ',');
  }

  /** An entry splits at its space into longitude and latitude, in that order. */
  lemma EntryFields(p: Point, fmt: real -> string)
    requires Avoids(fmt, ' ')
    ensures Split(Entry(p, fmt), ' ') == [fmt(p.lng), fmt(p.lat)]
  {
    assert ' ' !in fmt(p.lng) && ' ' !in fmt(p.lat);
    SplitPrefix(fmt(p.lng), fmt(p.lat), ' ');
    SplitNoSep(fmt(p.lat), ' ');
  }

  lemma EntryAvoids(p: Point, fmt: real -> string, c: char)
    requires Avoids(fmt, c) && c != ' '
    ensures c !in Entry(p, fmt)
  {
    assert c !in fmt(p.lng) && c !in fmt(p.lat);
  }

  /**
   * Adding a point extends the text by one entry: after a "," when there
   * were points before, directly after "(" when there were none.
   */
  lemma WktAppend(points: seq<Point>, p: Point, fmt: real -> string)
    ensures Inner(PointsWkt(points + [p], fmt))
      == Inner(PointsWkt(points, fmt)) + (if points == [] then "" else ",") + Entry(p, fmt)
  {
    var es := Entries(points, fmt);
    assert Entries(points + [p], fmt) == es + [Entry(p, fmt)];
    JoinSnoc(es, Entry(p, fmt), ",");
  }
}
