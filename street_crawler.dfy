/**
 * The grouping loop of `StreetCrawler.getStreets` in crawlStreetData.py:
 * every way of the Overpass result that has a name becomes a `Line` of
 * its nodes' coordinates, and the lines are collected into one `Street`
 * per name.
 *
 * The Overpass query is not part of this model: its result is the node
 * map (id to latitude and longitude) and the sequence of ways, each with
 * its tags and its node ids in order.
 */
module StreetCrawler {
  import opened Wrappers
  import opened Lines
  import opened Multilines
  import opened Streets

  /** `{n.id: (n.lat, n.lon)}` over the nodes of the result. */
  type NodeMap = map<int, (real, real)>

  datatype Way = Way(tags: map<string, string>, nodeIds: seq<int>)

  /** The point that `addPoint(*nodes[id])` adds for a node. */
  function NodePoint(nodes: NodeMap, id: int): Point
    requires id in nodes
  {
    Point(nodes[id].1, nodes[id].0)
  }

  /** The points of a way's line, or `None` when one of its nodes is missing. */
  function WayPoints(nodes: NodeMap, ids: seq<int>): (r: Option<seq<Point>>)
    ensures r.Some? <==> forall i :: 0 <= i < |ids| ==> ids[i] in nodes
    ensures r.Some? ==> |r.value| == |ids|
    decreases |ids|
  {
    if ids == [] then Some([])
    else
      match WayPoints(nodes, ids[..|ids| - 1])
      case None => None
      case Some(points) =>
        if ids[|ids| - 1] in nodes then Some(points + [NodePoint(nodes, ids[|ids| - 1])]) else None
  }

  /** A way the loop keeps: it has a name and all of its nodes are known. */
  predicate Kept(nodes: NodeMap, way: Way) {
    "name" in way.tags && WayPoints(nodes, way.nodeIds).Some?
  }

  /**
   * What one way does to the streets map, as the points of each street's
   * lines: a kept way adds its line to the street of its name, which it
   * creates when it is the first way with that name.
   */
  function Step(g: map<string, seq<seq<Point>>>, nodes: NodeMap, way: Way): map<string, seq<seq<Point>>> {
    if Kept(nodes, way) then Appended(g, way.tags["name"], WayPoints(nodes, way.nodeIds).value) else g
  }

  /** The streets map after the given ways. */
  function Grouped(nodes: NodeMap, ways: seq<Way>): map<string, seq<seq<Point>>>
    decreases |ways|
  {
    if ways == [] then map[]
    else Step(Grouped(nodes, ways[..|ways| - 1]), nodes, ways[|ways| - 1])
  }

  /** The lines of the kept ways named `name`, in the order of the ways. */
  function Named(nodes: NodeMap, ways: seq<Way>, name: string): (r: seq<seq<Point>>)
    decreases |ways|
  {
    if ways == [] then []
    else
      var way := ways[|ways| - 1];
      Named(nodes, ways[..|ways| - 1], name)
      + if Kept(nodes, way) && way.tags["name"] == name then [WayPoints(nodes, way.nodeIds).value] else []
  }

  /**
   * A name is a key of the result exactly when some kept way has it, and
   * its street holds one line per kept way with that name, in encounter
   * order; ways without a name or with a missing node leave no trace.
   */
  lemma {:induction false} GroupedNamed(nodes: NodeMap, ways: seq<Way>, name: string)
    ensures name in Grouped(nodes, ways) <==> Named(nodes, ways, name) != []
    ensures name in Grouped(nodes, ways) ==> Grouped(nodes, ways)[name] == Named(nodes, ways, name)
    decreases |ways|
  {
    if ways != [] {
      GroupedNamed(nodes, ways[..|ways| - 1], name);
    }
  }

  /** A name is a key exactly when some kept way carries it. */
  lemma {:induction false} NamedSome(nodes: NodeMap, ways: seq<Way>, name: string)
    ensures Named(nodes, ways, name) != [] <==>
      exists i :: 0 <= i < |ways| && Kept(nodes, ways[i]) && ways[i].tags["name"] == name
    decreases |ways|
  {
    if ways != [] {
      var init := ways[..|ways| - 1];
      NamedSome(nodes, init, name);
      assert forall i :: 0 <= i < |init| ==> init[i] == ways[i];
      if Named(nodes, init, name) == [] && Named(nodes, ways, name) != [] {
        assert Kept(nodes, ways[|ways| - 1]);
      }
    }
  }

  /** The `Line` of one way, built point by point; `ok` is false where a node is missing. */
  method BuildLine(nodes: NodeMap, ids: seq<int>) returns (ok: bool, l: Line)
    ensures fresh(l)
    ensures ok <==> WayPoints(nodes, ids).Some?
    ensures ok ==> l.points == WayPoints(nodes, ids).value
  {
    l := new Line();
    var j := 0;
    while j < |ids|
      invariant 0 <= j <= |ids|
      invariant WayPoints(nodes, ids[..j]) == Some(l.points)
    {
      if ids[j] !in nodes {
        return false, l;
      }
      var (lat, lon) := nodes[ids[j]];
      l.AddPoint(lat, lon);
      assert ids[..j + 1][..j] == ids[..j];
      j := j + 1;
    }
    assert ids[..j] == ids;
    ok := true;
  }

  /** The geometries of the streets. */
  function Geometries(streets: map<string, Street>): set<Multiline> {
    set k | k in streets :: streets[k].multiline
  }

  /** The line objects that `held` lists. */
  function LinesIn(held: map<string, seq<Line>>): set<Line> {
    set k, i | k in held && 0 <= i < |held[k]| :: held[k][i]
  }

  /**
   * Each street is named by its key and has a geometry still collecting
   * lines: the ones `held` lists for that key.
   */
  ghost predicate Holding(streets: map<string, Street>, held: map<string, seq<Line>>)
    reads Geometries(streets)
  {
    && streets.Keys == held.Keys
    && forall k :: k in streets ==>
         streets[k].name == k && streets[k].multiline.wkt == None && streets[k].multiline.lines == Some(held[k])
  }

  /** The lines that `held` lists have the points `g` lists. */
  ghost predicate Drawn(held: map<string, seq<Line>>, g: map<string, seq<seq<Point>>>)
    reads LinesIn(held)
  {
    && held.Keys == g.Keys
    && forall k :: k in held ==>
         |held[k]| == |g[k]| && forall i :: 0 <= i < |held[k]| ==> held[k][i].points == g[k][i]
  }

  /**
   * The streets have geometries of their own, and ids numbered from `lo`
   * up to `hi`, one number each.
   */
  predicate Numbered(streets: map<string, Street>, issued: map<string, nat>, lo: nat, hi: nat) {
    && streets.Keys == issued.Keys
    && (forall k, k' :: k in streets && k' in streets && k != k' ==>
          streets[k].multiline != streets[k'].multiline)
    && (forall k :: k in issued ==> lo <= issued[k] < hi && streets[k].uuid == IdText(issued[k]))
    && (forall k, k' :: k in issued && k' in issued && k != k' ==> issued[k] != issued[k'])
    && hi == lo + |streets|
  }

  /** One more line for `name`, with its points. */
  lemma DrawnAdd(held: map<string, seq<Line>>, g: map<string, seq<seq<Point>>>, name: string, l: Line)
    requires Drawn(held, g)
    ensures Drawn(Appended(held, name, l), Appended(g, name, l.points))
  {
  }

  /** A kept way whose name has a street already: its line joins that street's geometry. */
  method Extend(streets: map<string, Street>, ghost held: map<string, seq<Line>>, name: string, l: Line,
                 ghost drawn: map<string, seq<Line>>, ghost g: map<string, seq<seq<Point>>>, ghost ids: IdSource)
    requires Holding(streets, held) && Drawn(drawn, g) && name in streets
    requires forall k, k' :: k in streets && k' in streets && k != k' ==>
      streets[k].multiline != streets[k'].multiline
    modifies streets[name].multiline
    ensures Holding(streets, held[name := held[name] + [l]]) && Drawn(drawn, g)
    ensures ids.next == old(ids.next)
  {
    var added := streets[name].AddLine(l);
  }

  /** A kept way with a new name: a new street holding its line. */
  method Create(streets: map<string, Street>, ghost held: map<string, seq<Line>>,
                ghost issued: map<string, nat>, ghost lo: nat, name: string, l: Line, ids: IdSource,
                ghost drawn: map<string, seq<Line>>, ghost g: map<string, seq<seq<Point>>>)
    returns (streets': map<string, Street>, ghost issued': map<string, nat>)
    requires Holding(streets, held) && Drawn(drawn, g) && Numbered(streets, issued, lo, ids.next) && name !in streets
    modifies ids
    ensures Holding(streets', held[name := [l]]) && Drawn(drawn, g) && Numbered(streets', issued', lo, ids.next)
    ensures forall k :: k in streets ==> streets'[k] == streets[k]
    ensures name in streets' && fresh(streets'[name]) && fresh(streets'[name].multiline)
  {
    ghost var n := ids.next;
    var s := NewStreet(name, l, ids, streets, held, drawn, g);
    streets' := streets[name := s];
    issued' := issued[name := n];
    NumberedAdd(streets, issued, lo, n, name, s);
  }

  /** `Street(name, l)`, seen from the loop: the streets and their lines are left as they were. */
  method NewStreet(name: string, l: Line, ids: IdSource, ghost streets: map<string, Street>, ghost held: map<string, seq<Line>>,
                   ghost drawn: map<string, seq<Line>>, ghost g: map<string, seq<seq<Point>>>)
    returns (s: Street)
    requires Holding(streets, held) && Drawn(drawn, g)
    modifies ids
    ensures Holding(streets, held) && Drawn(drawn, g)
    ensures s.name == name && s.uuid == IdText(old(ids.next)) && ids.next == old(ids.next) + 1
    ensures fresh(s) && fresh(s.multiline) && s.multiline.wkt == None && s.multiline.lines == Some([l])
  {
    s := new Street.FromName(name, l, ids);
  }

  lemma NumberedAdd(streets: map<string, Street>, issued: map<string, nat>, lo: nat, hi: nat, name: string, s: Street)
    requires Numbered(streets, issued, lo, hi) && name !in streets && s.multiline !in Geometries(streets)
    requires s.uuid == IdText(hi)
    ensures Numbered(streets[name := s], issued[name := hi], lo, hi + 1)
  {
  }

  /** Appends `x` to the sequence `m` holds for `name`, starting an empty one where there is none. */
  function Appended<T>(m: map<string, seq<T>>, name: string, x: T): map<string, seq<T>> {
    m[name := (if name in m then m[name] else []) + [x]]
  }

  /**
   * The `try` block for a kept way: its line is added to the street of its
   * name, or, when that lookup raises KeyError, a new street is made.
   */
  method AddKept(streets: map<string, Street>, ghost held: map<string, seq<Line>>, ghost g: map<string, seq<seq<Point>>>,
                 ghost issued: map<string, nat>, ghost lo: nat, name: string, l: Line, ghost points: seq<Point>, ids: IdSource)
    returns (streets': map<string, Street>, ghost issued': map<string, nat>)
    requires Holding(streets, held) && Drawn(held, g) && Numbered(streets, issued, lo, ids.next)
    requires l.points == points
    modifies ids, Geometries(streets)
    ensures Holding(streets', Appended(held, name, l)) && Drawn(Appended(held, name, l), Appended(g, name, points))
    ensures Numbered(streets', issued', lo, ids.next)
    ensures forall k :: k in streets ==> k in streets' && streets'[k] == streets[k]
    ensures forall k :: k in streets' && k !in streets ==> fresh(streets'[k]) && fresh(streets'[k].multiline)
  {
    ghost var drawn, g' := Appended(held, name, l), Appended(g, name, points);
    DrawnAdd(held, g, name, l);
    if name in streets {
      streets', issued' := streets, issued;
      Extend(streets, held, name, l, drawn, g', ids);
    } else {
      assert [] + [l] == [l];
      streets', issued' := Create(streets, held, issued, lo, name, l, ids, drawn, g');
    }
  }

  /** The body of the loop over the ways: one way read into the streets map. */
  method AddWay(streets: map<string, Street>, ghost held: map<string, seq<Line>>, ghost g: map<string, seq<seq<Point>>>,
                ghost issued: map<string, nat>, ghost lo: nat, nodes: NodeMap, way: Way, ids: IdSource)
    returns (streets': map<string, Street>, ghost held': map<string, seq<Line>>, ghost issued': map<string, nat>)
    requires Holding(streets, held) && Drawn(held, g) && Numbered(streets, issued, lo, ids.next)
    modifies ids, Geometries(streets)
    ensures Holding(streets', held') && Drawn(held', Step(g, nodes, way)) && Numbered(streets', issued', lo, ids.next)
    ensures forall k :: k in streets ==> k in streets' && streets'[k] == streets[k]
    ensures forall k :: k in streets' && k !in streets ==> fresh(streets'[k]) && fresh(streets'[k].multiline)
  {
    if "name" in way.tags {
      streets', held', issued' := AddNamed(streets, held, g, issued, lo, nodes, way, ids);
    } else {
      streets', held', issued' := streets, held, issued;
    }
  }

  /** A way with a name: its line is built, and kept unless one of its nodes is missing. */
  method AddNamed(streets: map<string, Street>, ghost held: map<string, seq<Line>>, ghost g: map<string, seq<seq<Point>>>,
                  ghost issued: map<string, nat>, ghost lo: nat, nodes: NodeMap, way: Way, ids: IdSource)
    returns (streets': map<string, Street>, ghost held': map<string, seq<Line>>, ghost issued': map<string, nat>)
    requires "name" in way.tags
    requires Holding(streets, held) && Drawn(held, g) && Numbered(streets, issued, lo, ids.next)
    modifies ids, Geometries(streets)
    ensures Holding(streets', held') && Drawn(held', Step(g, nodes, way)) && Numbered(streets', issued', lo, ids.next)
    ensures forall k :: k in streets ==> k in streets' && streets'[k] == streets[k]
    ensures forall k :: k in streets' && k !in streets ==> fresh(streets'[k]) && fresh(streets'[k].multiline)
  {
    streets', held', issued' := streets, held, issued;
    var ok, l := BuildHeld(nodes, way.nodeIds, streets, held, g);
    if ok {
      streets', issued' := AddKept(streets, held, g, issued, lo, way.tags["name"], l, l.points, ids);
      held' := Appended(held, way.tags["name"], l);
    }
  }

  /** `BuildLine`, seen from the loop: the streets and their lines are left as they were. */
  method BuildHeld(nodes: NodeMap, ids: seq<int>, ghost streets: map<string, Street>,
                   ghost held: map<string, seq<Line>>, ghost g: map<string, seq<seq<Point>>>)
    returns (ok: bool, l: Line)
    requires Holding(streets, held) && Drawn(held, g)
    ensures Holding(streets, held) && Drawn(held, g)
    ensures fresh(l)
    ensures ok <==> WayPoints(nodes, ids).Some?
    ensures ok ==> l.points == WayPoints(nodes, ids).value
  {
    ok, l := BuildLine(nodes, ids);
  }

  /** The loop over the ways, with the invariants that tie its state to `Grouped`. */
  method Collect(nodes: NodeMap, ways: seq<Way>, ids: IdSource)
    returns (streets: map<string, Street>, ghost held: map<string, seq<Line>>, ghost issued: map<string, nat>)
    modifies ids
    ensures Holding(streets, held) && Drawn(held, Grouped(nodes, ways))
    ensures Numbered(streets, issued, old(ids.next), ids.next)
    ensures forall k :: k in streets ==> fresh(streets[k]) && fresh(streets[k].multiline)
  {
    streets, held, issued := map[], map[], map[];
    ghost var lo := ids.next;
    var w := 0;
    while w < |ways|
      invariant 0 <= w <= |ways|
      invariant Holding(streets, held) && Drawn(held, Grouped(nodes, ways[..w]))
      invariant Numbered(streets, issued, lo, ids.next)
      invariant forall k :: k in streets ==> fresh(streets[k]) && fresh(streets[k].multiline)
    {
      assert ways[..w + 1][..w] == ways[..w];
      ghost var before := streets;
      streets, held, issued := AddWay(streets, held, Grouped(nodes, ways[..w]), issued, lo, nodes, ways[w], ids);
      forall k | k in streets
        ensures fresh(streets[k]) && fresh(streets[k].multiline)
      {
        if k in before {
          assert streets[k] == before[k];
        }
      }
      w := w + 1;
    }
    assert ways[..|ways|] == ways;
  }

  /**
   * `getStreets()` after the query: one street per name of a kept way,
   * with that name, a new id of its own, and a geometry still collecting
   * lines that holds one line per kept way with the name, in order.
   */
  method GetStreets(nodes: NodeMap, ways: seq<Way>, ids: IdSource) returns (streets: map<string, Street>)
    modifies ids
    ensures streets.Keys == Grouped(nodes, ways).Keys
    ensures forall k :: k in streets ==>
      fresh(streets[k]) && fresh(streets[k].multiline) && streets[k].name == k
      && streets[k].multiline.wkt == None && streets[k].multiline.lines.Some?
      && ShapesOf(streets[k].multiline.lines.value) == Grouped(nodes, ways)[k]
    ensures forall k, k' :: k in streets && k' in streets && k != k' ==> streets[k].uuid != streets[k'].uuid
    ensures forall k :: k in streets ==> exists n :: old(ids.next) <= n < ids.next && streets[k].uuid == IdText(n)
    ensures ids.next == old(ids.next) + |streets|
  {
    ghost var held, issued;
    streets, held, issued := Collect(nodes, ways, ids);
    forall k | k in streets
      ensures ShapesOf(streets[k].multiline.lines.value) == Grouped(nodes, ways)[k]
    {
    }
    forall k, k' | k in streets && k' in streets && k != k'
      ensures streets[k].uuid != streets[k'].uuid
    {
      IdTextInjective(issued[k], issued[k']);
    }
  }
}
