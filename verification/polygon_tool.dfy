/**
 The polygon tool of dl_markup/PolygonTool.py: clicks on empty space place
 square vertex markers, each drawing an edge from its centre; a click on the
 first marker closes the polygon and commits it to the history.

 A `VertexItem` is a 6 x 6 rectangle at local (0, 0) placed at scene position
 `pos`, so its centre is `pos + (3, 3)`. Its outgoing edge is a line item placed
 at that centre, from local (0, 0) to local `p2`. The incoming edge is the
 previous vertex's outgoing edge, recorded here by that vertex's index.

 Markers are added straight to the scene, not through the history: a marker is
 built with the scene's `background_item` as parent, so it enters the scene at
 construction, but only once an image has been loaded. Before that the parent is
 `None` and the marker is a free item that no click can ever hit. Which items
 lie under a click is an input: the indices of this tool's vertices that were
 hit, and whether any other rectangle item was.
 */
module PolygonTool {
  import opened Wrappers
  import opened Geometry
  import History
  import Shapes

  /** `vertex_side`. */
  const Side: real := 6.0

  /** The centre of the marker rectangle in its own coordinates, `rect().center()`. */
  const HalfSide := Point(Side / 2.0, Side / 2.0)

  /** A placed `VertexItem`. */
  datatype Vertex = Vertex(marker: History.ItemId, pos: Point, p2: Point, incoming: Option<nat>)

  /** The tool: the placed vertices in placement order and the colour. */
  datatype Polygon = Polygon(vertices: seq<Vertex>, color: Color)

  /** The result of `scene.items(point)` as the press handler reads it. */
  datatype Hits = Hits(vertices: set<nat>, otherRect: bool)

  type Log = History.Log<Shapes.Shape>

  datatype Step = Step(tool: Polygon, log: Log)

  /** `scenePos() + rect().center()`. */
  function Center(v: Vertex): Point {
    Add(v.pos, HalfSide)
  }

  /** The scene point the outgoing edge ends at. */
  function FarEnd(v: Vertex): Point {
    Add(Center(v), v.p2)
  }

  /** The vertex centres in placement order: the outline `drawPolygon` builds. */
  function Centers(vs: seq<Vertex>): (r: seq<Point>)
    ensures |r| == |vs|
    ensures forall i :: 0 <= i < |vs| ==> r[i] == Center(vs[i])
  {
    seq(|vs|, i requires 0 <= i < |vs| => Center(vs[i]))
  }

  function Markers(vs: seq<Vertex>): set<History.ItemId> {
    set v | v in vs :: v.marker
  }

  /** Each vertex's incoming edge is its predecessor's outgoing edge; the first has none. */
  predicate Linked(vs: seq<Vertex>) {
    forall i :: 0 <= i < |vs| ==> vs[i].incoming == (if i == 0 then None else Some(i - 1))
  }

  /** Every recorded incoming edge belongs to a placed vertex. */
  predicate ValidRefs(vs: seq<Vertex>) {
    forall i :: 0 <= i < |vs| && vs[i].incoming.Some? ==> vs[i].incoming.value < |vs|
  }

  /** `Polygon(canvas, color)`. */
  function Init(color: Color): (t: Polygon)
    ensures t.vertices == [] && t.color == color
  {
    Polygon([], color)
  }

  /**
   The vertex a click at `p` creates: centred on `p`, with the edge stub from
   `QGraphicsLineItem(0, 0, 1, 1)` and the previous vertex's edge as incoming.
   */
  function NewVertex(vs: seq<Vertex>, p: Point, marker: History.ItemId): (v: Vertex)
    ensures v.marker == marker && Center(v) == p && v.p2 == Point(1.0, 1.0)
    ensures v.incoming == (if vs == [] then None else Some(|vs| - 1))
  {
    Vertex(marker, Sub(p, HalfSide), Point(1.0, 1.0), if vs == [] then None else Some(|vs| - 1))
  }

  /** `clear`: take every marker off the scene and forget the vertices. */
  function Clear(t: Polygon, log: Log): (r: Step)
    ensures r.tool.vertices == [] && r.tool.color == t.color
    ensures r.log.undo == log.undo && r.log.redo == log.redo
    ensures forall x :: x in r.log.scene <==> x in log.scene && x !in Markers(t.vertices)
  {
    Step(t.(vertices := []), log.(scene := log.scene - Markers(t.vertices)))
  }

  /** `drawPolygon`: commit one polygon through the centres, in the tool's colour. */
  function DrawPolygon(t: Polygon, log: Log, item: History.ItemId): (r: Log)
    ensures |r.undo| == |log.undo| + 1 && r.undo[..|log.undo|] == log.undo
    ensures r.undo[|log.undo|] == History.AddCommand(item, Shapes.Polygon(Centers(t.vertices), t.color))
    ensures r.redo == [] && r.scene == log.scene + {item}
  {
    History.InsertAdd(log, item, Shapes.Polygon(Centers(t.vertices), t.color))
  }

  /** Some rectangle item lies under the click. */
  predicate HitsRect(h: Hits) {
    h.vertices != {} || h.otherRect
  }

  /**
   `mousePressEvent`. With a rectangle under the click and no vertex placed the
   source reads `verticies[0]` of an empty list: that is the `None` result.
   A hit on the first vertex draws the polygon and clears the tool; a hit on any
   other rectangle does nothing; a click on empty space places a vertex. The
   handler does not check for an image: `loaded` says whether the scene has a
   background item, and only then does the new marker join the scene.
   */
  function Press(t: Polygon, p: Point, h: Hits, loaded: bool, log: Log, marker: History.ItemId, polygon: History.ItemId): (r: Option<Step>)
    ensures r.None? <==> HitsRect(h) && t.vertices == []
    ensures r.Some? && !HitsRect(h) ==>
      && r.value.tool.vertices == t.vertices + [NewVertex(t.vertices, p, marker)]
      && r.value.tool.color == t.color
      && r.value.log.undo == log.undo && r.value.log.redo == log.redo
      && (loaded ==> r.value.log.scene == log.scene + {marker})
      && (!loaded ==> r.value.log.scene == log.scene)
    ensures r.Some? && HitsRect(h) && 0 in h.vertices ==>
      && r.value.tool.vertices == []
      && r.value.log.undo == log.undo + [History.AddCommand(polygon, Shapes.Polygon(Centers(t.vertices), t.color))]
      && r.value.log.redo == []
      && r.value.log.scene == (log.scene + {polygon}) - Markers(t.vertices)
    ensures r.Some? && HitsRect(h) && 0 !in h.vertices ==> r.value == Step(t, log)
  {
    if HitsRect(h) then
      if t.vertices == [] then None
      else if 0 in h.vertices then
        var drawn := DrawPolygon(t, log, polygon);
        assert drawn.undo == drawn.undo[..|log.undo|] + [drawn.undo[|log.undo|]];
        Some(Clear(t, drawn))
      else Some(Step(t, log))
    else
      var v := NewVertex(t.vertices, p, marker);
      Some(Step(t.(vertices := t.vertices + [v]), if loaded then log.(scene := log.scene + {marker}) else log))
  }

  /** `mouseMoveEvent`: the last vertex's edge follows the pointer. */
  function Move(t: Polygon, p: Point): (r: Polygon)
    ensures |r.vertices| == |t.vertices| && r.color == t.color
    ensures t.vertices != [] ==> FarEnd(r.vertices[|r.vertices| - 1]) == p
    ensures forall i :: 0 <= i < |t.vertices| ==>
      var (v, w) := (t.vertices[i], r.vertices[i]);
      w.marker == v.marker && w.pos == v.pos && w.incoming == v.incoming
    ensures forall i :: 0 <= i < |t.vertices| - 1 ==> r.vertices[i] == t.vertices[i]
  {
    if t.vertices == [] then t
    else
      var n := |t.vertices| - 1;
      var last := t.vertices[n];
      t.(vertices := t.vertices[n := last.(p2 := Sub(p, Center(last)))])
  }

  /**
   `VertexItem.mouseMoveEvent` for vertex `i` dragged to scene position `pos`:
   the incoming edge is re-aimed at the new centre, and the vertex's own edge
   stub is shifted back by the displacement.
   */
  function DragVertex(t: Polygon, i: nat, pos: Point): (r: Polygon)
    requires i < |t.vertices| && ValidRefs(t.vertices)
    ensures |r.vertices| == |t.vertices| && r.color == t.color
    ensures Center(r.vertices[i]) == Add(pos, HalfSide)
    ensures t.vertices[i].incoming.Some? && t.vertices[i].incoming != Some(i) ==>
      FarEnd(r.vertices[t.vertices[i].incoming.value]) == Center(r.vertices[i])
    ensures t.vertices[i].incoming != Some(i) ==> FarEnd(r.vertices[i]) == FarEnd(t.vertices[i])
    ensures forall j :: 0 <= j < |t.vertices| ==>
      r.vertices[j].marker == t.vertices[j].marker && r.vertices[j].incoming == t.vertices[j].incoming
    ensures forall j :: 0 <= j < |t.vertices| && j != i && Some(j) != t.vertices[i].incoming ==>
      r.vertices[j] == t.vertices[j]
  {
    var before := Center(t.vertices[i]);
    var moved := t.vertices[i].(pos := pos);
    var vs := t.vertices[i := moved];
    var nu := Center(moved);
    var vs' :=
      match moved.incoming
      case None => vs
      case Some(j) => vs[j := vs[j].(p2 := Sub(nu, Center(vs[j])))];
    var dragged := vs'[i];
    t.(vertices := vs'[i := dragged.(p2 := Add(dragged.p2, Sub(before, nu)))])
  }

  // ---------------------------------------------------------------- lemmas

  /** Clicks on empty space, one per point, each placing a marker with the matching id. */
  function PlaceAll(t: Polygon, ps: seq<Point>, loaded: bool, log: Log, markers: seq<History.ItemId>): (r: Step)
    requires |markers| == |ps|
    decreases |ps|
  {
    if ps == [] then Step(t, log)
    else
      var s := Press(t, ps[0], Hits({}, false), loaded, log, markers[0], 0).value;
      PlaceAll(s.tool, ps[1..], loaded, s.log, markers[1..])
  }

  /** Placing a vertex keeps the edge chain linked. */
  lemma PlaceKeepsLinked(vs: seq<Vertex>, p: Point, marker: History.ItemId)
    requires Linked(vs)
    ensures Linked(vs + [NewVertex(vs, p, marker)])
  {
  }

  /**
   Clicking empty space at `ps`, in order, appends exactly one vertex per click,
   centred on the click, keeps the chain linked, adds only the markers to the
   scene (and none before an image is loaded) and leaves the history's stacks
   alone.
   */
  lemma {:induction false} PlaceAllAppends(t: Polygon, ps: seq<Point>, loaded: bool, log: Log, markers: seq<History.ItemId>)
    requires |markers| == |ps| && Linked(t.vertices)
    ensures var r := PlaceAll(t, ps, loaded, log, markers);
      && Centers(r.tool.vertices) == Centers(t.vertices) + ps
      && Linked(r.tool.vertices)
      && r.tool.color == t.color
      && r.log.undo == log.undo && r.log.redo == log.redo
      && r.log.scene == log.scene + (if loaded then (set x | x in markers) else {})
      && Markers(r.tool.vertices) == Markers(t.vertices) + (set x | x in markers)
    decreases |ps|
  {
    if ps != [] {
      var s := Press(t, ps[0], Hits({}, false), loaded, log, markers[0], 0).value;
      PlaceOne(t, ps[0], loaded, log, markers[0]);
      PlaceAllAppends(s.tool, ps[1..], loaded, s.log, markers[1..]);
      ConsSplit(ps, markers);
    }
  }

  /** One click on empty space, in the terms `PlaceAllAppends` needs. */
  lemma PlaceOne(t: Polygon, p: Point, loaded: bool, log: Log, marker: History.ItemId)
    requires Linked(t.vertices)
    ensures var s := Press(t, p, Hits({}, false), loaded, log, marker, 0).value;
      && Centers(s.tool.vertices) == Centers(t.vertices) + [p]
      && Linked(s.tool.vertices)
      && s.tool.color == t.color
      && s.log == log.(scene := log.scene + (if loaded then {marker} else {}))
      && Markers(s.tool.vertices) == Markers(t.vertices) + {marker}
  {
    var v := NewVertex(t.vertices, p, marker);
    PlaceKeepsLinked(t.vertices, p, marker);
    assert Markers(t.vertices + [v]) == Markers(t.vertices) + {marker} by {
      assert forall w :: w in t.vertices + [v] <==> w in t.vertices || w == v;
    }
  }

  lemma ConsSplit<T, U>(ps: seq<T>, ms: seq<U>)
    requires ps != [] && ms != []
    ensures ps == [ps[0]] + ps[1..]
    ensures (set x | x in ms) == {ms[0]} + (set x | x in ms[1..])
  {
    assert ms == [ms[0]] + ms[1..];
  }

  /** A move keeps the edge chain linked and leaves every marker in place. */
  lemma MoveKeepsLinked(t: Polygon, p: Point)
    requires Linked(t.vertices)
    ensures Linked(Move(t, p).vertices)
    ensures Markers(Move(t, p).vertices) == Markers(t.vertices)
    ensures Centers(Move(t, p).vertices) == Centers(t.vertices)
  {
    var r := Move(t, p);
    forall x | x in Markers(t.vertices) ensures x in Markers(r.vertices) {
      var i :| 0 <= i < |t.vertices| && t.vertices[i].marker == x;
      assert r.vertices[i].marker == x;
    }
    forall x | x in Markers(r.vertices) ensures x in Markers(t.vertices) {
      var i :| 0 <= i < |r.vertices| && r.vertices[i].marker == x;
      assert t.vertices[i].marker == x;
    }
  }

  /**
   In a linked chain, dragging vertex `i` re-aims its predecessor's edge at the
   new centre, keeps its own edge's far end and touches no other vertex.
   */
  lemma DragInLinkedChain(t: Polygon, i: nat, pos: Point)
    requires i < |t.vertices| && Linked(t.vertices)
    ensures ValidRefs(t.vertices)
    ensures var r := DragVertex(t, i, pos);
      && Linked(r.vertices)
      && (i > 0 ==> FarEnd(r.vertices[i - 1]) == Add(pos, HalfSide))
      && FarEnd(r.vertices[i]) == FarEnd(t.vertices[i])
      && (forall j :: 0 <= j < |t.vertices| && j != i && j != i - 1 ==> r.vertices[j] == t.vertices[j])
  {
    assert t.vertices[i].incoming == (if i == 0 then None else Some(i - 1));
  }

  /** Closing on the first vertex commits the polygon through every centre, in placement order, and nothing else. */
  lemma CloseCommitsPolygon(t: Polygon, p: Point, h: Hits, loaded: bool, log: Log, marker: History.ItemId, polygon: History.ItemId)
    requires t.vertices != [] && 0 in h.vertices
    ensures var r := Press(t, p, h, loaded, log, marker, polygon);
      && r.Some?
      && r.value.log == History.InsertAdd(log, polygon, Shapes.Polygon(Centers(t.vertices), t.color)).(scene := (log.scene + {polygon}) - Markers(t.vertices))
      && r.value.tool == Init(t.color)
  {
  }

  /**
   The markers live in the scene beside the history: with the markers counted in
   the base scene, placing one keeps the history consistent, and clearing after
   a close leaves the committed polygon on a base without markers.
   */
  lemma PlaceConsistent(t: Polygon, p: Point, loaded: bool, log: Log, base: set<History.ItemId>, marker: History.ItemId, polygon: History.ItemId)
    requires History.Consistent(log, base)
    requires marker !in log.scene && marker !in History.Items(History.Timeline(log))
    ensures var r := Press(t, p, Hits({}, false), loaded, log, marker, polygon).value;
      History.Consistent(r.log, base + (if loaded then {marker} else {}))
  {
    var r := Press(t, p, Hits({}, false), loaded, log, marker, polygon).value;
    History.ConsistentScene(log, base);
    History.ItemsAppend(log.undo, History.Reverse(log.redo));
    History.ItemsReverse(log.redo);
  }

  lemma CloseConsistent(t: Polygon, p: Point, h: Hits, loaded: bool, log: Log, base: set<History.ItemId>, marker: History.ItemId, polygon: History.ItemId)
    requires History.Consistent(log, base)
    requires t.vertices != [] && 0 in h.vertices
    requires Markers(t.vertices) <= base
    requires polygon !in log.scene && polygon !in base && polygon !in Markers(t.vertices)
    ensures History.Consistent(Press(t, p, h, loaded, log, marker, polygon).value.log, base - Markers(t.vertices))
  {
    var drawn := History.InsertAdd(log, polygon, Shapes.Polygon(Centers(t.vertices), t.color));
    History.InsertAddConsistent(log, base, polygon, Shapes.Polygon(Centers(t.vertices), t.color));
    MarkersOffHistory(drawn, base, Markers(t.vertices));
  }

  /** The hits a click can report: only vertices whose marker is in the scene. */
  predicate HitsInScene(t: Polygon, h: Hits, scene: set<History.ItemId>) {
    forall i :: i in h.vertices ==> i < |t.vertices| && t.vertices[i].marker in scene
  }

  /**
   Before an image is loaded no marker joins the scene, so no click can hit a
   vertex: every press keeps the markers off the scene and the history
   untouched, and the polygon can never be closed.
   */
  lemma UnloadedNeverCloses(t: Polygon, p: Point, h: Hits, log: Log, marker: History.ItemId, polygon: History.ItemId)
    requires Markers(t.vertices) !! log.scene && marker !in log.scene
    requires HitsInScene(t, h, log.scene)
    ensures h.vertices == {}
    ensures var r := Press(t, p, h, false, log, marker, polygon);
      r.Some? ==> r.value.log == log && Markers(r.value.tool.vertices) !! r.value.log.scene
  {
    assert forall i :: i in h.vertices ==> t.vertices[i].marker in Markers(t.vertices);
    var r := Press(t, p, h, false, log, marker, polygon);
    if r.Some? && !HitsRect(h) {
      var v := NewVertex(t.vertices, p, marker);
      assert Markers(t.vertices + [v]) == Markers(t.vertices) + {marker} by {
        assert forall w :: w in t.vertices + [v] <==> w in t.vertices || w == v;
      }
    }
  }

  /** Taking items of the base scene off the scene keeps the history consistent over the smaller base. */
  lemma MarkersOffHistory(log: Log, base: set<History.ItemId>, ms: set<History.ItemId>)
    requires History.Consistent(log, base) && ms <= base
    ensures History.Consistent(log.(scene := log.scene - ms), base - ms)
  {
    History.ConsistentScene(log, base);
    History.ItemsAppend(log.undo, History.Reverse(log.redo));
  }
}
