/**
 * multiline.py: a geometry that is either still collecting lines or
 * frozen as a WKT string.
 *
 * `lines` is `None` once the geometry is frozen; `wkt` is the string it
 * was created with (`None` by default) until `getWKT` serialises the
 * collected lines into it. The WKT argument of the constructor is only
 * stored, never parsed.
 */
module Multilines {
  import opened Wrappers
  import opened Text
  import opened Lines

  /** Python truthiness of an optional string: present and not empty. */
  predicate Truthy(s: Option<string>) {
    s.Some? && s.value != ""
  }

  /** The points of each line, in order. */
  function ShapesOf(ls: seq<Line>): (shapes: seq<seq<Point>>)
    reads set i | 0 <= i < |ls| :: ls[i]
    ensures |shapes| == |ls|
    ensures forall i :: 0 <= i < |ls| ==> shapes[i] == ls[i].points
  {
    seq(|ls|, i reads set j | 0 <= j < |ls| :: ls[j] requires 0 <= i < |ls| => ls[i].points)
  }

  /** The coordinate list of each line, in order. */
  function LineTexts(shapes: seq<seq<Point>>, fmt: real -> string): (r: seq<string>)
    ensures |r| == |shapes|
    ensures forall i :: 0 <= i < |shapes| ==> r[i] == PointsWkt(shapes[i], fmt)
  {
    seq(|shapes|, i requires 0 <= i < |shapes| => PointsWkt(shapes[i], fmt))
  }

  /**
   * What `getWKT` stores for a non-empty list of lines: a `LINESTRING` for
   * one line, a `MULTILINESTRING` of all of them for more.
   */
  function MultiText(shapes: seq<seq<Point>>, fmt: real -> string): string
    requires shapes != []
  {
    if |shapes| > 1 then "MULTILINESTRING" + "(" + Join(LineTexts(shapes, fmt), ",") + ")"
    else "LINESTRING" + PointsWkt(shapes[0], fmt)
  }

  class Multiline {
    var lines: Option<seq<Line>>
    var wkt: Option<string>

    /** Collecting lines exactly while `wkt` is falsy. */
    ghost predicate Valid()
      reads this
    {
      lines.None? <==> Truthy(wkt)
    }

    /** The lines collected so far. */
    function Members(): set<Line>
      reads this
    {
      if lines.Some? then set i | 0 <= i < |lines.value| :: lines.value[i] else {}
    }

    /** What `getWKT()` returns in the present state. */
    function Pending(fmt: real -> string): Option<string>
      reads this, Members()
    {
      if lines.None? || lines.value == [] then wkt
      else Some(MultiText(ShapesOf(lines.value), fmt))
    }

    /** `Multiline(wkt)`: frozen when given a non-empty WKT string, collecting otherwise. */
    constructor(text: Option<string>)
      ensures wkt == text
      ensures lines == if Truthy(text) then None else Some([])
      ensures Valid()
    {
      lines := if Truthy(text) then None else Some([]);
      wkt := text;
    }

    /**
     * `addLine(line)`: appends the line while `wkt` is falsy and fails (the
     * source raises) otherwise, changing nothing.
     */
    method AddLine(line: Line) returns (ok: bool)
      requires Valid()
      modifies this
      ensures Valid()
      ensures ok == !Truthy(old(wkt))
      ensures wkt == old(wkt)
      ensures ok ==> old(lines).Some? && lines == Some(old(lines).value + [line])
      ensures !ok ==> lines == old(lines)
    {
      if !Truthy(wkt) {
        lines := Some(lines.value + [line]);
        ok := true;
      } else {
        ok := false;
      }
    }

    /**
     * `getWKT()`: with no lines to serialise, the stored `wkt` as it is;
     * otherwise the lines are written once into `wkt`, dropped, and the
     * text returned. That text is never empty, so the geometry is frozen
     * from then on: later calls return the same text and `addLine` fails.
     */
    method GetWkt(fmt: real -> string) returns (r: Option<string>)
      requires Valid()
      modifies this
      ensures Valid()
      ensures old(lines) == None || old(lines) == Some([]) ==>
        r == old(wkt) && lines == old(lines) && wkt == old(wkt)
      ensures old(lines).Some? && old(lines).value != [] ==>
        lines == None && r == wkt && r == Some(MultiText(old(ShapesOf(lines.value)), fmt)) && Truthy(wkt)
      ensures r == old(Pending(fmt)) && Pending(fmt) == r
    {
      if lines.None? || lines.value == [] {
        return wkt;
      }
      var text := MultiText(ShapesOf(lines.value), fmt);
      MultiTextKind(ShapesOf(lines.value), fmt);
      wkt := Some(text);
      lines := None;
      r := wkt;
    }
  }

  /**
   * A single line is written as `LINESTRING` followed by its own coordinate
   * list, more lines as `MULTILINESTRING`: the text starts with `L` exactly
   * when there is one line.
   */
  lemma MultiTextKind(shapes: seq<seq<Point>>, fmt: real -> string)
    requires shapes != []
    ensures var t := MultiText(shapes, fmt);
      t != [] && (t[0] == 'L' <==> |shapes| == 1)
      && (|shapes| == 1 ==> t[10..] == PointsWkt(shapes[0], fmt))
  {
  }

  /**
   * Every line is one parenthesised group, and a `MULTILINESTRING` adds the
   * group around them all, as long as the formatted numbers hold no "(".
   */
  lemma GroupCount(shapes: seq<seq<Point>>, fmt: real -> string)
    requires shapes != [] && Avoids(fmt, '(')
    ensures multiset(MultiText(shapes, fmt))['('] == |shapes| + (if |shapes| > 1 then 1 else 0)
  {
    if |shapes| > 1 {
      ManyGroups(shapes, fmt);
    } else {
      OneGroup(shapes[0], fmt);
      KindNameCounts();
      assert multiset("LINESTRING" + PointsWkt(shapes[0], fmt))
        == multiset("LINESTRING") + multiset(PointsWkt(shapes[0], fmt));
    }
  }

  lemma ManyGroups(shapes: seq<seq<Point>>, fmt: real -> string)
    requires |shapes| > 1 && Avoids(fmt, '(')
    ensures multiset(MultiText(shapes, fmt))['('] == |shapes| + 1
  {
    var texts := LineTexts(shapes, fmt);
    forall i | 0 <= i < |texts|
      ensures multiset(texts[i])['('] == 1
    {
      OneGroup(shapes[i], fmt);
    }
    KindNameCounts();
    Enclosed("MULTILINESTRING", Join(texts, ","));
    JoinCount(texts, ",", '(');
    SumCountEach(texts, '(', 1);
  }

  /** The coordinate list of one line opens one group. */
  lemma OneGroup(points: seq<Point>, fmt: real -> string)
    requires Avoids(fmt, '(')
    ensures multiset(PointsWkt(points, fmt))['('] == 1
  {
    var es := Entries(points, fmt);
    forall i | 0 <= i < |es|
      ensures multiset(es[i])['('] == 0
    {
      EntryAvoids(points[i], fmt, '(');
    }
    calc {
      multiset(PointsWkt(points, fmt))['('];
      multiset("" + "(" + Join(es, ",") + ")")['('];
    == { Enclosed("", Join(es, ",")); }
      1 + multiset(Join(es, ","))['('];
    == { JoinCount(es, ",", '('); SumCountEach(es, '(', 0); }
      1;
    }
  }

  /** A name without "(" followed by one parenthesised group opens one more group than its inside. */
  lemma Enclosed(name: string, inside: string)
    requires '(' !in name
    ensures multiset(name + "(" + inside + ")")['('] == 1 + multiset(inside)['(']
  {
    assert multiset(name + "(" + inside + ")") == multiset(name) + multiset("(") + multiset(inside) + multiset(")");
    assert multiset("(")['('] == 1 && multiset(")")['('] == 0;
  }

  lemma KindNameCounts()
    ensures '(' !in "MULTILINESTRING" && multiset("LINESTRING")['('] == 0
  {
    assert '(' !in "LINESTRING";
  }

  /** Parts that each hold `c` exactly `k` times hold it `k` times per part together. */
  lemma {:induction false} SumCountEach(parts: seq<string>, c: char, k: nat)
    requires forall i :: 0 <= i < |parts| ==> multiset(parts[i])[c] == k
    ensures SumCount(parts, c) == |parts| * k
    decreases |parts|
  {
    if parts != [] {
      SumCountEach(parts[1..], c, k);
    }
  }
}
