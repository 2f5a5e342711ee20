/**
 The repository's own test scenarios, and usage stories of the tools, stated as lemmas
 over the model. The fixture of tests/fixtures.py puts an ellipse item (id 1)
 and then a line item (id 2) into an empty scene through the history.
 */
module Scenarios {
  import opened Geometry
  import History
  import BrushTool
  import PolygonTool
  import Shapes

  datatype TestItem = EllipseItem | LineItem

  /** Two commands recorded and applied in order, nothing undone. */
  function BothDone<S>(c1: History.Command<S>, c2: History.Command<S>): History.Log<S> {
    History.Log([c1, c2], [], {c1.item, c2.item})
  }

  /** The second of two commands undone. */
  function OneUndone<S>(c1: History.Command<S>, c2: History.Command<S>): History.Log<S> {
    History.Log([c1], [c2], {c1.item})
  }

  /** Both commands undone, the second on the bottom of the redo stack. */
  function BothUndone<S>(c1: History.Command<S>, c2: History.Command<S>): History.Log<S> {
    History.Log([], [c2, c1], {})
  }

  lemma UndoTwo<S>(c1: History.Command<S>, c2: History.Command<S>, levels: int)
    requires c1.item != c2.item
    ensures History.Undo(BothDone(c1, c2), 1) == OneUndone(c1, c2)
    ensures History.Undo(OneUndone(c1, c2), 1) == BothUndone(c1, c2)
    ensures History.Undo(BothDone(c1, c2), 2) == BothUndone(c1, c2)
    ensures History.Undo(BothUndone(c1, c2), levels) == BothUndone(c1, c2)
  {
    var (d, o, u) := (BothDone(c1, c2), OneUndone(c1, c2), BothUndone(c1, c2));
    assert History.PopUndo(d) == o;
    assert History.Undo(d, 1) == History.Undo(o, 0);
    assert History.PopUndo(o) == u;
    assert History.Undo(o, 1) == History.Undo(u, 0);
    assert History.Undo(d, 2) == History.Undo(o, 1);
  }

  lemma RedoTwo<S>(c1: History.Command<S>, c2: History.Command<S>, levels: int)
    requires c1.item != c2.item
    ensures History.Redo(BothUndone(c1, c2), 1) == OneUndone(c1, c2)
    ensures History.Redo(OneUndone(c1, c2), 1) == BothDone(c1, c2)
    ensures History.Redo(BothUndone(c1, c2), 2) == BothDone(c1, c2)
    ensures History.Redo(BothDone(c1, c2), levels) == BothDone(c1, c2)
  {
    var (d, o, u) := (BothDone(c1, c2), OneUndone(c1, c2), BothUndone(c1, c2));
    assert History.PopRedo(u) == o;
    assert History.Redo(u, 1) == History.Redo(o, 0);
    assert History.PopRedo(o) == d;
    assert History.Redo(o, 1) == History.Redo(d, 0);
    assert History.Redo(u, 2) == History.Redo(o, 1);
  }

  const C1 := History.AddCommand(1, EllipseItem)
  const C2 := History.AddCommand(2, LineItem)

  function Fixture(): (log: History.Log<TestItem>)
    ensures log == BothDone(C1, C2)
  {
    var empty: History.Log<TestItem> := History.Init({});
    History.InsertAdd(History.InsertAdd(empty, 1, EllipseItem), 2, LineItem)
  }

  /** `test_undo_1`: one undo leaves only the first item. */
  lemma TestUndo1()
    ensures History.Undo(Fixture(), 1).scene == {1}
  {
    UndoTwo(C1, C2, 0);
  }

  /** `test_undo_2`: two undos empty the scene. */
  lemma TestUndo2()
    ensures History.Undo(Fixture(), 2).scene == {}
  {
    UndoTwo(C1, C2, 0);
  }

  /** `test_redo_1`: after two undos, one redo brings back the first item only. */
  lemma TestRedo1()
    ensures History.Redo(History.Undo(Fixture(), 2), 1).scene == {1}
  {
    UndoTwo(C1, C2, 0);
    RedoTwo(C1, C2, 0);
  }

  /** `test_redo_2`: two undos then two redos bring both items back. */
  lemma TestRedo2()
    ensures History.Redo(History.Undo(Fixture(), 2), 2).scene == {1, 2}
  {
    UndoTwo(C1, C2, 0);
    RedoTwo(C1, C2, 0);
  }

  /**
   `test_undo_redo`: requests beyond the stack depth stop early and do no harm;
   the mixed sequence ends with both items in the scene and the log as it began.
   */
  lemma TestUndoRedoMixed()
    ensures var a := History.Undo(History.Undo(Fixture(), 2), 1);
      var b := History.Redo(History.Redo(a, 2), 1);
      var c := History.Redo(History.Redo(History.Undo(b, 2), 1), 1);
      c.scene == {1, 2} && c == Fixture()
  {
    UndoTwo(C1, C2, 1);
    RedoTwo(C1, C2, 1);
  }

  /**
   A brush drag from (0, 0) through (10, 0) to (10, 10) with radius 5 commits two
   strokes; undoing one at a time takes them off in reverse order, and `redo(2)`
   brings back both, the same commands as before. For the capping brush this is
   the corrected move handler's behaviour.
   */
  lemma DragUndoRedo(b: BrushTool.Brush, c: BrushTool.Canvas)
    requires c.imageLoaded && c.width >= 11.0 && c.height >= 11.0 && b.radius == 5
    ensures var pressed := BrushTool.Press(b, Point(0.0, 0.0), BrushTool.LeftButton);
      var s := BrushTool.MoveAll(pressed, c, [Point(10.0, 0.0), Point(10.0, 10.0)], History.Init({}), [1, 2]);
      var a1 := History.AddCommand(1, BrushTool.StrokeOf(5, pressed.color, Point(0.0, 0.0), Point(10.0, 0.0)));
      var a2 := History.AddCommand(2, BrushTool.StrokeOf(5, pressed.color, Point(10.0, 0.0), Point(10.0, 10.0)));
      && s.log == BothDone(a1, a2)
      && History.Undo(s.log, 1).scene == {1}
      && History.Undo(History.Undo(s.log, 1), 1).scene == {}
      && History.Redo(History.Undo(History.Undo(s.log, 1), 1), 2) == s.log
  {
    var p0 := Point(0.0, 0.0);
    var ps := [Point(10.0, 0.0), Point(10.0, 10.0)];
    var pressed := BrushTool.Press(b, p0, BrushTool.LeftButton);
    var a1 := History.AddCommand(1, BrushTool.StrokeOf(5, pressed.color, p0, ps[0]));
    var a2 := History.AddCommand(2, BrushTool.StrokeOf(5, pressed.color, ps[0], ps[1]));
    BrushTool.DragCommitsChain(pressed, c, ps, History.Init({}), [1, 2]);
    assert BrushTool.Strokes(5, pressed.color, p0, ps, [1, 2]) == [a1, a2];
    assert (set x | x in [1, 2]) == {1, 2};
    UndoTwo(a1, a2, 0);
    RedoTwo(a1, a2, 0);
  }

  /**
   Drawing three strokes and undoing two leaves the first; a new stroke then
   discards the undone ones, so a redo brings nothing back.
   */
  lemma UndoThenDrawDiscardsRedo(s1: Shapes.Shape, s2: Shapes.Shape, s3: Shapes.Shape, s4: Shapes.Shape)
    ensures var drawn := History.InsertAdd(History.InsertAdd(History.InsertAdd(History.Init<Shapes.Shape>({}), 1, s1), 2, s2), 3, s3);
      var undone := History.Undo(drawn, 2);
      var again := History.InsertAdd(undone, 4, s4);
      && undone.scene == {1}
      && again.scene == {1, 4}
      && History.Redo(again, 1) == again
  {
  }

  /**
   With an image loaded, clicking empty space at each of `ps` on an empty scene, then clicking the
   first marker, commits exactly one polygon through `ps`, in order, and leaves
   only that polygon in the scene.
   */
  lemma ClosePolygon(color: Color, ps: seq<Point>, markers: seq<History.ItemId>, polygon: History.ItemId, marker: History.ItemId)
    requires |markers| == |ps| && ps != []
    requires polygon !in markers
    ensures var placed := PolygonTool.PlaceAll(PolygonTool.Init(color), ps, true, History.Init({}), markers);
      var closed := PolygonTool.Press(placed.tool, ps[0], PolygonTool.Hits({0}, false), true, placed.log, marker, polygon);
      && closed.Some?
      && closed.value.log.undo == [History.AddCommand(polygon, Shapes.Polygon(ps, color))]
      && closed.value.log.redo == []
      && closed.value.log.scene == {polygon}
      && closed.value.tool.vertices == []
  {
    var log := History.Init<Shapes.Shape>({});
    var placed := PolygonTool.PlaceAll(PolygonTool.Init(color), ps, true, log, markers);
    PolygonTool.PlaceAllAppends(PolygonTool.Init(color), ps, true, log, markers);
    var ms := set x | x in markers;
    assert PolygonTool.Centers(placed.tool.vertices) == ps by {
      assert PolygonTool.Centers([]) == [];
    }
    assert PolygonTool.Markers(placed.tool.vertices) == ms;
    assert placed.log == History.Log([], [], ms);
    assert placed.tool.vertices != [] by {
      assert |PolygonTool.Centers(placed.tool.vertices)| == |ps|;
    }
    PolygonTool.CloseCommitsPolygon(placed.tool, ps[0], PolygonTool.Hits({0}, false), true, placed.log, marker, polygon);
    assert (ms + {polygon}) - ms == {polygon};
  }

  /** Three clicks and a click on the first marker give the triangle through them. */
  lemma ClosePolygonOfThree(color: Color, a: Point, b: Point, c: Point)
    ensures var placed := PolygonTool.PlaceAll(PolygonTool.Init(color), [a, b, c], true, History.Init({}), [1, 2, 3]);
      var closed := PolygonTool.Press(placed.tool, a, PolygonTool.Hits({0}, false), true, placed.log, 4, 5);
      && closed.Some?
      && closed.value.log.undo == [History.AddCommand(5, Shapes.Polygon([a, b, c], color))]
      && closed.value.log.scene == {5}
  {
    ClosePolygon(color, [a, b, c], [1, 2, 3], 5, 4);
  }
}
