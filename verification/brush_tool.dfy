/**
 The round brush. Two versions exist: `Brush` in dl_markup/BrushTool.py, whose
 radius setter clamps into [2, 25], and `Brush` in dl_markup/Tools.py (the one
 the canvas imports), whose setter only caps at 63 and whose right-button press
 switches the colour to black. Its move handler, as written, cannot commit a
 stroke: `MoveAsWritten` records that, and `Move` is the handler both brushes
 evidently intend, the one the drag lemmas use. Everything else is shared.

 Hit positions arrive already mapped to scene coordinates; the id of the
 `CylinderItem` a move creates is passed in by the caller.
 */
module BrushTool {
  import opened Wrappers
  import opened Geometry
  import History
  import CylinderItem
  import Shapes

  /** Which of the two source classes. */
  datatype Variant = Clamped | Capped

  datatype Key = KeyPlus | KeyEqual | KeyMinus | OtherKey(code: int)

  datatype Button = LeftButton | RightButton | MiddleButton

  /** The canvas facts a move looks at: whether an image is loaded and the scene size. */
  datatype Canvas = Canvas(imageLoaded: bool, width: real, height: real)

  /**
   The tool's state: `last_x, last_y` (absent as a pair), `mouse_pressed`,
   the radius and the colour.
   */
  datatype Brush = Brush(variant: Variant, anchor: Option<Point>, pressed: bool, radius: int, color: Color)

  type Log = History.Log<Shapes.Shape>

  /** The brush after an event, together with the history it drew into. */
  datatype Step = Step(brush: Brush, log: Log)

  /** The radii the setter of each variant can store. */
  predicate Admissible(v: Variant, radius: int) {
    match v
    case Clamped => 2 <= radius <= 25
    case Capped => radius <= 63
  }

  function Distance(a: int, b: int): nat {
    if a <= b then b - a else a - b
  }

  /**
   The `radius` property setter: the admissible radius nearest to the value
   asked for, which is the value itself when it is admissible.
   */
  function SetRadius(v: Variant, value: int): (r: int)
    ensures Admissible(v, r)
    ensures Admissible(v, value) <==> r == value
    ensures forall w :: Admissible(v, w) ==> Distance(r, value) <= Distance(w, value)
  {
    match v
    case Clamped => if value > 25 then 25 else if value < 2 then 2 else value
    case Capped => if value > 63 then 63 else value
  }

  /** `Brush(canvas, color)` of dl_markup/BrushTool.py. */
  function NewBrush(color: Color): (b: Brush)
    ensures b.variant == Clamped && b.color == color
    ensures b.anchor == None && !b.pressed && b.radius == 20
  {
    Brush(Clamped, None, false, SetRadius(Clamped, 20), color)
  }

  /** `Brush(canvas)` of dl_markup/Tools.py: always starts green. */
  function NewToolsBrush(): (b: Brush)
    ensures b.variant == Capped && b.color == Green
    ensures b.anchor == None && !b.pressed && b.radius == 20
  {
    Brush(Capped, None, false, SetRadius(Capped, 20), Green)
  }

  /** `mousePressEvent`: anchor at the pointer and start drawing. */
  function Press(b: Brush, p: Point, button: Button): (r: Brush)
    ensures r.anchor == Some(p) && r.pressed
    ensures r.variant == b.variant && r.radius == b.radius
    ensures r.color == (if b.variant == Capped && button == RightButton then Black else b.color)
  {
    var color := if b.variant == Capped && button == RightButton then Black else b.color;
    b.(anchor := Some(p), pressed := true, color := color)
  }

  /** `mouseReleaseEvent`: forget the anchor and stop drawing; the colour stays. */
  function Release(b: Brush): (r: Brush)
    ensures r.anchor == None && !r.pressed
    ensures r.variant == b.variant && r.radius == b.radius && r.color == b.color
  {
    b.(anchor := None, pressed := false)
  }

  /** `keyPressEvent`: `+` and `=` grow the radius by one, `-` shrinks it to `max(1, r - 1)`; both go through the setter. */
  function KeyPress(b: Brush, k: Key): (r: Brush)
    ensures r.variant == b.variant && r.anchor == b.anchor && r.pressed == b.pressed && r.color == b.color
    ensures k.OtherKey? ==> r == b
    ensures (k == KeyPlus || k == KeyEqual) && Admissible(b.variant, b.radius + 1) ==> r.radius == b.radius + 1
    ensures k == KeyMinus && b.radius >= 2 && Admissible(b.variant, b.radius - 1) ==> r.radius == b.radius - 1
  {
    match k
    case KeyPlus => b.(radius := SetRadius(b.variant, b.radius + 1))
    case KeyEqual => b.(radius := SetRadius(b.variant, b.radius + 1))
    case KeyMinus => b.(radius := SetRadius(b.variant, if b.radius - 1 >= 1 then b.radius - 1 else 1))
    case OtherKey(_) => b
  }

  /** The move handler's bounds test: a point off the image is one left, above, right of or below it. */
  predicate OutOfBounds(c: Canvas, p: Point) {
    p.x < 0.0 || p.y < 0.0 || p.x > c.width - 1.0 || p.y > c.height - 1.0
  }

  /** The stroke a brush draws from `a` to `p`: its radius, and its colour for both pen and brush. */
  function StrokeOf(radius: int, color: Color, a: Point, p: Point): Shapes.Shape {
    Shapes.Stroke(CylinderItem.Cylinder(a, p, radius as real, Some(color), Some(color)))
  }

  /** A move commits a stroke exactly when it is live, in bounds and anchored. */
  predicate Commits(b: Brush, c: Canvas, p: Point) {
    c.imageLoaded && b.pressed && !OutOfBounds(c, p) && b.anchor.Some?
  }

  /**
   `mouseMoveEvent`: ignored without an image or while the button is up; off the
   image it drops the anchor; otherwise it anchors at the pointer, first
   committing the stroke from the previous anchor when there was one.

   This is the handler of dl_markup/BrushTool.py, and the corrected handler of
   the capping brush, whose committing branch fails as written (`MoveAsWritten`).
   */
  function Move(b: Brush, c: Canvas, p: Point, log: Log, item: History.ItemId): (r: Step)
    ensures r.brush.variant == b.variant && r.brush.pressed == b.pressed
    ensures r.brush.radius == b.radius && r.brush.color == b.color
    ensures !c.imageLoaded || !b.pressed ==> r.brush == b
    ensures c.imageLoaded && b.pressed && OutOfBounds(c, p) ==> r.brush.anchor == None
    ensures c.imageLoaded && b.pressed && !OutOfBounds(c, p) ==> r.brush.anchor == Some(p)
    ensures !Commits(b, c, p) ==> r.log == log
    ensures Commits(b, c, p) ==>
      && |r.log.undo| == |log.undo| + 1 && r.log.undo[..|log.undo|] == log.undo
      && r.log.undo[|log.undo|] == History.AddCommand(item, StrokeOf(b.radius, b.color, b.anchor.value, p))
      && r.log.redo == []
      && r.log.scene == log.scene + {item}
  {
    if !c.imageLoaded || !b.pressed then
      Step(b, log)
    else if OutOfBounds(c, p) then
      Step(b.(anchor := None), log)
    else if b.anchor.None? then
      Step(b.(anchor := Some(p)), log)
    else
      var log' := History.InsertAdd(log, item, StrokeOf(b.radius, b.color, b.anchor.value, p));
      Step(b.(anchor := Some(p)), log')
  }

  /**
   The move handler exactly as written. The capping brush builds its stroke
   with the `CylinderItem` of dl_markup/CylinderItem.py and passes it a
   `parent` keyword that constructor does not accept, so its committing branch
   raises `TypeError` before the history or the anchor changes: that is the
   `None` result. Every other move is the corrected handler's.
   */
  function MoveAsWritten(b: Brush, c: Canvas, p: Point, log: Log, item: History.ItemId): (r: Option<Step>)
    ensures r.None? <==> b.variant == Capped && Commits(b, c, p)
    ensures r.Some? ==> r.value == Move(b, c, p, log, item)
  {
    if b.variant == Capped && Commits(b, c, p) then None
    else Some(Move(b, c, p, log, item))
  }

  /**
   As written, the capping brush's first move on the image after a press fails,
   while the corrected handler commits the stroke from the press point.
   */
  lemma CappedMoveRaises(c: Canvas, p: Point, q: Point, button: Button, log: Log, item: History.ItemId)
    requires c.imageLoaded && !OutOfBounds(c, q)
    ensures MoveAsWritten(Press(NewToolsBrush(), p, button), c, q, log, item).None?
    ensures var pressed := Press(NewToolsBrush(), p, button);
      Move(pressed, c, q, log, item).log == History.InsertAdd(log, item, StrokeOf(20, pressed.color, p, q))
  {
  }

  /** As written, no move of the capping brush that completes ever changes the history. */
  lemma CappedNeverCommits(b: Brush, c: Canvas, p: Point, log: Log, item: History.ItemId)
    requires b.variant == Capped
    ensures var r := MoveAsWritten(b, c, p, log, item);
      r.Some? ==> r.value.log == log
  {
  }

  // ---------------------------------------------------------------- drags

  /** A sequence of moves, the i-th creating item `ids[i]` if it commits. */
  function MoveAll(b: Brush, c: Canvas, ps: seq<Point>, log: Log, ids: seq<History.ItemId>): (r: Step)
    requires |ids| == |ps|
    ensures r.brush.variant == b.variant && r.brush.pressed == b.pressed
    ensures r.brush.radius == b.radius && r.brush.color == b.color
    decreases |ps|
  {
    if ps == [] then Step(b, log)
    else
      var s := Move(b, c, ps[0], log, ids[0]);
      MoveAll(s.brush, c, ps[1..], s.log, ids[1..])
  }

  /** The strokes a drag from `a` through `ps` draws: each joins the previous pointer position to the next. */
  function Strokes(radius: int, color: Color, a: Point, ps: seq<Point>, ids: seq<History.ItemId>): (r: seq<History.Command<Shapes.Shape>>)
    requires |ids| == |ps|
    ensures |r| == |ps|
  {
    seq(|ps|, i requires 0 <= i < |ps| => History.AddCommand(ids[i], StrokeOf(radius, color, if i == 0 then a else ps[i - 1], ps[i])))
  }

  predicate AllInBounds(c: Canvas, ps: seq<Point>) {
    forall i :: 0 <= i < |ps| ==> !OutOfBounds(c, ps[i])
  }

  function Last(a: Point, ps: seq<Point>): Point {
    if ps == [] then a else ps[|ps| - 1]
  }

  lemma StrokesCons(radius: int, color: Color, a: Point, ps: seq<Point>, ids: seq<History.ItemId>)
    requires |ids| == |ps| && ps != []
    ensures Strokes(radius, color, a, ps, ids) == [History.AddCommand(ids[0], StrokeOf(radius, color, a, ps[0]))] + Strokes(radius, color, ps[0], ps[1..], ids[1..])
  {
  }

  /** One anchored, in-bounds move: the stroke from the anchor, then the anchor moves on. */
  lemma DragStep(b: Brush, c: Canvas, p: Point, log: Log, item: History.ItemId)
    requires c.imageLoaded && b.pressed && b.anchor.Some? && !OutOfBounds(c, p)
    ensures var s := Move(b, c, p, log, item);
      && s.log.undo == log.undo + [History.AddCommand(item, StrokeOf(b.radius, b.color, b.anchor.value, p))]
      && s.log.redo == []
      && s.log.scene == log.scene + {item}
      && s.brush == b.(anchor := Some(p))
  {
    var s := Move(b, c, p, log, item);
    assert s.log.undo == s.log.undo[..|log.undo|] + [s.log.undo[|log.undo|]];
  }

  lemma TailInBounds(c: Canvas, ps: seq<Point>)
    requires ps != [] && AllInBounds(c, ps)
    ensures !OutOfBounds(c, ps[0]) && AllInBounds(c, ps[1..])
  {
    forall i | 0 <= i < |ps[1..]| ensures !OutOfBounds(c, ps[1..][i]) {
      assert ps[1..][i] == ps[i + 1];
    }
  }

  /**
   A drag that stays on the image, starting from an anchor, commits one stroke
   per move, in order and joined end to end, adds exactly their items, and ends
   anchored at the last pointer position.
   */
  lemma DragCommitsChain(b: Brush, c: Canvas, ps: seq<Point>, log: Log, ids: seq<History.ItemId>)
    requires |ids| == |ps|
    requires c.imageLoaded && b.pressed && b.anchor.Some?
    requires AllInBounds(c, ps)
    ensures var r := MoveAll(b, c, ps, log, ids);
      && r.log.undo == log.undo + Strokes(b.radius, b.color, b.anchor.value, ps, ids)
      && r.log.redo == (if ps == [] then log.redo else [])
      && r.log.scene == log.scene + (set x | x in ids)
      && r.brush.anchor == Some(Last(b.anchor.value, ps))
  {
    DragStrokes(b, c, ps, log, ids);
    DragItems(b, c, ps, log, ids);
  }

  lemma {:induction false} DragStrokes(b: Brush, c: Canvas, ps: seq<Point>, log: Log, ids: seq<History.ItemId>)
    requires |ids| == |ps|
    requires c.imageLoaded && b.pressed && b.anchor.Some?
    requires AllInBounds(c, ps)
    ensures var r := MoveAll(b, c, ps, log, ids);
      && r.log.undo == log.undo + Strokes(b.radius, b.color, b.anchor.value, ps, ids)
      && r.brush.anchor == Some(Last(b.anchor.value, ps))
    decreases |ps|
  {
    if ps != [] {
      var s := Move(b, c, ps[0], log, ids[0]);
      TailInBounds(c, ps);
      DragStep(b, c, ps[0], log, ids[0]);
      DragStrokes(s.brush, c, ps[1..], s.log, ids[1..]);
      StrokesCons(b.radius, b.color, b.anchor.value, ps, ids);
      if |ps| > 1 {
        assert Last(ps[0], ps[1..]) == Last(b.anchor.value, ps);
      }
    }
  }

  lemma {:induction false} DragItems(b: Brush, c: Canvas, ps: seq<Point>, log: Log, ids: seq<History.ItemId>)
    requires |ids| == |ps|
    requires c.imageLoaded && b.pressed && b.anchor.Some?
    requires AllInBounds(c, ps)
    ensures var r := MoveAll(b, c, ps, log, ids);
      && r.log.redo == (if ps == [] then log.redo else [])
      && r.log.scene == log.scene + (set x | x in ids)
    decreases |ps|
  {
    if ps != [] {
      var s := Move(b, c, ps[0], log, ids[0]);
      TailInBounds(c, ps);
      DragStep(b, c, ps[0], log, ids[0]);
      DragItems(s.brush, c, ps[1..], s.log, ids[1..]);
      assert (set x | x in ids) == {ids[0]} + (set x | x in ids[1..]) by {
        assert ids == [ids[0]] + ids[1..];
      }
    }
  }

  // ---------------------------------------------------------------- radius

  /** The radii each variant can reach from its initial 20: [2, 25] for the clamping brush, [1, 63] for the capping one. */
  predicate RadiusOk(b: Brush) {
    match b.variant
    case Clamped => 2 <= b.radius <= 25
    case Capped => 1 <= b.radius <= 63
  }

  lemma InitRadiusOk(color: Color)
    ensures RadiusOk(NewBrush(color)) && RadiusOk(NewToolsBrush())
  {
  }

  /** No event takes the radius out of its range. */
  lemma EventsKeepRadius(b: Brush, p: Point, button: Button, k: Key, c: Canvas, log: Log, item: History.ItemId)
    requires RadiusOk(b)
    ensures RadiusOk(Press(b, p, button)) && RadiusOk(Release(b))
    ensures RadiusOk(KeyPress(b, k))
    ensures RadiusOk(Move(b, c, p, log, item).brush)
  {
  }

  /** `-` never takes the radius below the clamp's floor of 2 nor, in the capping brush, below 1. */
  lemma MinusFloor(b: Brush)
    requires RadiusOk(b)
    ensures KeyPress(b, KeyMinus).radius == (if b.variant == Clamped then (if b.radius > 2 then b.radius - 1 else 2) else (if b.radius > 1 then b.radius - 1 else 1))
  {
  }

  /** `+` and `=` raise the radius by one up to the variant's ceiling, then stop. */
  lemma PlusCeiling(b: Brush, k: Key)
    requires RadiusOk(b) && (k == KeyPlus || k == KeyEqual)
    ensures var top := if b.variant == Clamped then 25 else 63;
      KeyPress(b, k).radius == (if b.radius < top then b.radius + 1 else top)
  {
  }

  /** Away from the ends of the range, `+` then `-` and `-` then `+` restore the radius. */
  lemma PlusMinusRoundTrip(b: Brush)
    requires RadiusOk(b)
    ensures b.radius < (if b.variant == Clamped then 25 else 63) ==> KeyPress(KeyPress(b, KeyPlus), KeyMinus) == b
    ensures b.radius > (if b.variant == Clamped then 2 else 1) ==> KeyPress(KeyPress(b, KeyMinus), KeyPlus) == b
  {
  }

  // ---------------------------------------------------------------- scenarios

  /**
   Unlike a drag that starts with an unanchored move, the press already anchors:
   the first move after a press commits the stroke from the press point.
   */
  lemma PressThenMoveCommits(b: Brush, c: Canvas, p: Point, q: Point, button: Button, log: Log, item: History.ItemId)
    requires c.imageLoaded && !OutOfBounds(c, q)
    ensures var r := Move(Press(b, p, button), c, q, log, item);
      var pressed := Press(b, p, button);
      && r.log == History.InsertAdd(log, item, StrokeOf(pressed.radius, pressed.color, p, q))
      && r.brush.anchor == Some(q)
  {
  }

  /** Leaving the image and coming back commits nothing: the return only re-anchors. */
  lemma LeaveAndReturnCommitsNothing(b: Brush, c: Canvas, out: Point, back: Point, log: Log, i1: History.ItemId, i2: History.ItemId)
    requires OutOfBounds(c, out) && !OutOfBounds(c, back)
    ensures var s := Move(b, c, out, log, i1);
      var r := Move(s.brush, c, back, s.log, i2);
      && r.log == log
      && (c.imageLoaded && b.pressed ==> r.brush.anchor == Some(back))
  {
  }

  /** After a release, no move draws, wherever it goes. */
  lemma ReleaseStopsDrawing(b: Brush, c: Canvas, p: Point, log: Log, item: History.ItemId)
    ensures Move(Release(b), c, p, log, item) == Step(Release(b), log)
  {
  }

  /** In the capping brush a right-button press turns the colour black for good: release and later presses keep it. */
  lemma RightClickColourSticks(b: Brush, p: Point, q: Point, button: Button)
    requires b.variant == Capped
    ensures Release(Press(b, p, RightButton)).color == Black
    ensures Press(Release(Press(b, p, RightButton)), q, button).color == Black
  {
  }

  /** One input event reaching the brush; a move carries the id a committed stroke would get. */
  datatype Event = PressEvent(at: Point, button: Button) | ReleaseEvent | KeyEvent(key: Key) | MoveEvent(to: Point, item: History.ItemId)

  function Handle(b: Brush, c: Canvas, e: Event, log: Log): Step {
    match e
    case PressEvent(p, button) => Step(Press(b, p, button), log)
    case ReleaseEvent => Step(Release(b), log)
    case KeyEvent(k) => Step(KeyPress(b, k), log)
    case MoveEvent(p, item) => Move(b, c, p, log, item)
  }

  /** The brush and history after the events, in order. */
  function Run(b: Brush, c: Canvas, es: seq<Event>, log: Log): Step
    decreases |es|
  {
    if es == [] then Step(b, log)
    else
      var s := Handle(b, c, es[0], log);
      Run(s.brush, c, es[1..], s.log)
  }

  predicate IsRightPress(e: Event) {
    e.PressEvent? && e.button == RightButton
  }

  /** Some event of the run is a right-button press. */
  predicate RightPressed(es: seq<Event>) {
    exists i :: 0 <= i < |es| && IsRightPress(es[i])
  }

  /**
   Over any run of events the radius stays in its range, and the colour changes
   only in the capping brush, only to black, and exactly when the right button
   was pressed at some point: the clamping brush's colour is fixed.
   */
  lemma {:induction false} RunKeepsRadiusAndColour(b: Brush, c: Canvas, es: seq<Event>, log: Log)
    requires RadiusOk(b)
    ensures var r := Run(b, c, es, log).brush;
      && RadiusOk(r) && r.variant == b.variant
      && r.color == (if b.variant == Capped && RightPressed(es) then Black else b.color)
    decreases |es|
  {
    if es != [] {
      var e := es[0];
      var s := Handle(b, c, e, log);
      match e {
        case PressEvent(p, button) => EventsKeepRadius(b, p, button, KeyMinus, c, log, 0);
        case ReleaseEvent => EventsKeepRadius(b, Point(0.0, 0.0), LeftButton, KeyMinus, c, log, 0);
        case KeyEvent(k) => EventsKeepRadius(b, Point(0.0, 0.0), LeftButton, k, c, log, 0);
        case MoveEvent(p, item) => EventsKeepRadius(b, p, LeftButton, KeyMinus, c, log, item);
      }
      RunKeepsRadiusAndColour(s.brush, c, es[1..], s.log);
      assert RightPressed(es) <==> IsRightPress(e) || RightPressed(es[1..]) by {
        if RightPressed(es[1..]) {
          var i :| 0 <= i < |es[1..]| && IsRightPress(es[1..][i]);
          assert es[i + 1] == es[1..][i];
        }
        if RightPressed(es) && !IsRightPress(e) {
          var i :| 0 <= i < |es| && IsRightPress(es[i]);
          assert i > 0 && es[1..][i - 1] == es[i];
        }
      }
    }
  }
}
