/**
 The older `Polygon` tool of dl_markup/Tools.py, the one the canvas wires in. It
 only drops square markers: a press places a 6 x 6 rectangle centred on the
 click when exactly two items (the background and the image) lie under it.
 Its markers go straight into the scene; the history is never touched.
 How many items lie under the click is an input.
 */
module MarkerTool {
  import opened Wrappers
  import opened Geometry
  import History
  import Shapes

  /** `vertex_side`, an integer in the source; `vertex_side // 2` is 3. */
  const Side: int := 6

  datatype MarkerPolygon = MarkerPolygon(pressed: bool, color: Color)

  /** A `QGraphicsRectItem` marker: its item id, its rectangle and its fill colour. */
  datatype Marker = Marker(item: History.ItemId, rect: Rect, color: Color)

  type Log = History.Log<Shapes.Shape>

  datatype Step = Step(tool: MarkerPolygon, log: Log, placed: Option<Marker>)

  /** `Polygon(canvas)`: green and not pressed. */
  function Init(): (t: MarkerPolygon)
    ensures !t.pressed && t.color == Green
  {
    MarkerPolygon(false, Green)
  }

  /**
   `mousePressEvent`: note the press; with exactly two items under the click,
   place a marker centred on it in the tool's colour.
   */
  function Press(t: MarkerPolygon, p: Point, under: nat, log: Log, marker: History.ItemId): (r: Step)
    ensures r.tool == t.(pressed := true)
    ensures r.log.undo == log.undo && r.log.redo == log.redo
    ensures r.placed.Some? <==> under == 2
    ensures r.placed.Some? ==>
      && r.placed.value.item == marker
      && r.placed.value.color == t.color
      && r.placed.value.rect.w == r.placed.value.rect.h == Side as real
      && Center(r.placed.value.rect) == p
      && r.log.scene == log.scene + {marker}
    ensures r.placed.None? ==> r.log == log
  {
    var t' := t.(pressed := true);
    if under == 2 then
      var half := (Side / 2) as real;
      var m := Marker(marker, Rect(p.x - half, p.y - half, Side as real, Side as real), t.color);
      Step(t', log.(scene := log.scene + {marker}), Some(m))
    else
      Step(t', log, None)
  }

  /** `mouseReleaseEvent`. */
  function Release(t: MarkerPolygon): (r: MarkerPolygon)
    ensures !r.pressed && r.color == t.color
  {
    t.(pressed := false)
  }

  /** A press and its release leave the tool as it was, whatever else they did. */
  lemma PressReleaseRestores(t: MarkerPolygon, p: Point, under: nat, log: Log, marker: History.ItemId)
    requires !t.pressed
    ensures Release(Press(t, p, under, log, marker).tool) == t
  {
  }

  /**
   Markers sit beside the history: counting the new marker in the base scene,
   a press keeps the history consistent.
   */
  lemma PressConsistent(t: MarkerPolygon, p: Point, under: nat, log: Log, base: set<History.ItemId>, marker: History.ItemId)
    requires History.Consistent(log, base)
    requires marker !in History.Items(History.Timeline(log))
    ensures var r := Press(t, p, under, log, marker);
      History.Consistent(r.log, if r.placed.Some? then base + {marker} else base)
  {
    History.ConsistentScene(log, base);
  }
}
