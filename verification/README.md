# dl_markup drawing core in Dafny

A model of the drawing core of dl_markup, a PyQt tool for marking up images for
deep-learning datasets, with proofs about it. The core has three parts:

- **The undo/redo history** (`History`, in history.dfy). It covers `AddCommand` and
  `UndoRedo` of dl_markup/UndoRedo.py and their twin dl_markup/undo_redo.py.
  - A command adds one item to the scene.
  - `undo(levels)` and `redo(levels)` move commands between two stacks, stopping
    early when a stack runs out.
  - Recording a new command discards the redo stack.
  - The scene is a set of opaque item ids. The log record holds both stacks and
    the scene the log acts on.
- **The pointer-driven tools**:
  - `BrushTool` (brush_tool.dfy) models both brushes: the clamping one of
    dl_markup/BrushTool.py and the capping one of dl_markup/Tools.py, which the
    canvas imports. In the clamping brush each in-bounds, anchored move commits
    one capsule stroke through the history. The capping brush's committing move
    fails as written (see Findings); `BrushTool.Move` is its corrected handler,
    and `BrushTool.MoveAsWritten` is the handler as written.
  - `PolygonTool` (polygon_tool.dfy) models the vertex chain of
    dl_markup/PolygonTool.py. A click on the first vertex commits one polygon.
  - `MarkerTool` (marker_tool.dfy) models the older marker-only `Polygon` of
    dl_markup/Tools.py.
- **The capsule geometry** (`CylinderItem`, in cylinder_item.dfy). It models the
  `CylinderItem` that appears three times with the same geometry: in
  dl_markup/CylinderItem.py, dl_markup/BrushTool.py and dl_markup/scene.py.
  Its parts are two circles, a quadrilateral and a bounding rectangle. The
  three copies differ in their constructors. Only the one in
  dl_markup/BrushTool.py forwards extra arguments (`*args, **kwargs`, such as
  `parent=`) and computes its rectangle once at construction. The other two
  accept no extra arguments and build the rectangle inside `boundingRect`.

Supporting modules:

- `Wrappers` holds `Option`.
- `Geometry` holds points, `QRectF`-style rectangles and colours over exact reals.
- `Shapes` holds what a command carries: a stroke or a polygon.
- `Scenarios` restates the repository's tests and usage stories of the tools as lemmas.

Inputs the model cannot compute are parameters:

- a fresh Python object becomes a caller-chosen item id;
- a point reaches the model already mapped to scene coordinates;
- the result of `scene.items(point)` is given as an input;
- the normalised stroke direction (`QVector2D.normalize`) is given as an input.

Where the model relies on ids being fresh, the lemmas take freshness as a
hypothesis.

The history's central invariant is `History.Consistent(log, base)`:

- the items of the timeline (the undo stack followed by the reversed redo
  stack) are distinct;
- none of them is in the base scene;
- the scene is the base plus exactly the items of the undo stack.

Every history operation except the raw `insert_in_undo_redo` preserves it:
`undo`, `redo` and `insert_in_undo_redo_add` with a fresh item keep the same
base, and `clear` keeps it with the current scene as the new base. The raw
insert records an item its caller has already put in the scene, so it keeps
the invariant only once that item leaves the base (`History.InsertConsistent`).
Polygon markers live beside the history: they count in the base, never in a
command.

Points of behaviour worth knowing:

- The press handler sets the anchor, so in the clamping brush (and in the
  corrected capping brush) the first move after a press already commits a
  stroke (`BrushTool.PressThenMoveCommits`). As written, the capping brush's
  first such move raises `TypeError` instead (`BrushTool.CappedMoveRaises`). Only the first move back
  onto the image after leaving it merely anchors
  (`BrushTool.LeaveAndReturnCommitsNothing`).
- The polygon tool closes on any non-empty vertex list, so a one- or two-vertex
  polygon is committed as it is.
- The polygon tool's press handler does not check for an image. Before one is
  loaded, a click appends a vertex whose marker has no parent and so never
  enters the scene; no click can hit it, and the polygon can never be closed
  (`PolygonTool.UnloadedNeverCloses`).
- `boundingRect` passes `max + r` where Qt expects a width; see Findings.

## Model

| member | source | states |
|---|---|---|
| History.Execute | dl_markup/UndoRedo.py:37-39 | `execute` puts the command's item in the scene and changes the membership of no other item |
| History.UnExecute | dl_markup/UndoRedo.py:41-43 | `un_execute` takes the command's item out of the scene and changes the membership of no other item |
| History.ExecuteUnExecute | dl_markup/UndoRedo.py:37-43 | un-executing right after executing restores a scene that lacked the item |
| History.UnExecuteExecute | dl_markup/undo_redo.py:28-32 | executing right after un-executing restores a scene that held the item |
| History.UnExecuteIdempotent | dl_markup/undo_redo.py:31-32 | removing an item twice is the same as removing it once |
| History.Init | dl_markup/UndoRedo.py:49-56 | a new log has both stacks empty and leaves the scene as given |
| History.Undo | dl_markup/UndoRedo.py:58-68 | `undo(levels)` moves the top `min(levels, depth)` commands (none when `levels <= 0`) onto the redo stack, most recent first, and removes exactly their items from the scene |
| History.Redo | dl_markup/UndoRedo.py:70-80 | `redo(levels)` moves the top `min(levels, depth)` redo commands back, most recently undone first, and puts exactly their items back |
| History.Insert | dl_markup/UndoRedo.py:82-88 | recording pushes exactly one command on top of the undo stack, keeps the rest, empties the redo stack and leaves the scene alone |
| History.InsertAdd | dl_markup/UndoRedo.py:90-99 | insert-and-add pushes exactly one command for the item, empties the redo stack and adds exactly that item to the scene |
| History.Clear | dl_markup/UndoRedo.py:101-104 | `clear` empties both stacks and leaves the scene's contents unchanged |
| History.UndoRedoKeepCount | dl_markup/UndoRedo.py:58-80 | `undo` and `redo` preserve the total number of recorded commands |
| History.UndoKeepsTimeline | dl_markup/UndoRedo.py:63-68 | `undo` only moves the boundary within the timeline (undo stack followed by reversed redo stack), never reorders it |
| History.RedoKeepsTimeline | dl_markup/UndoRedo.py:75-80 | `redo` only moves the boundary within the timeline, never reorders it |
| History.UndoThenRedo | dl_markup/UndoRedo.py:58-80 | `undo(k)` then `redo(k)` with `k` at most the undo depth restores both stacks and the scene exactly, when the `k` undone items are in the scene |
| History.RedoThenUndo | dl_markup/undo_redo.py:42-56 | `redo(k)` then `undo(k)` with `k` at most the redo depth restores the log exactly, when the `k` redone items are off the scene |
| History.UndoSaturates | dl_markup/UndoRedo.py:63-65 | asking to undo at least the whole stack empties it and leaves exactly the base scene |
| History.ConsistentScene | dl_markup/undo_redo.py:42-67 | in a consistent log an item is in the scene exactly when it is in the base or on the undo stack, and no redo item is in the scene |
| History.UndoConsistent | dl_markup/undo_redo.py:42-48 | `undo` keeps the log consistent over the same base |
| History.RedoConsistent | dl_markup/undo_redo.py:50-56 | `redo` keeps the log consistent over the same base |
| History.InsertAddConsistent | dl_markup/undo_redo.py:62-67 | insert-and-add of a fresh item keeps the log consistent over the same base |
| History.ClearConsistent | dl_markup/undo_redo.py:69-71 | after `clear` the log is consistent, with the current scene as its new base |
| History.SceneIsTimelinePrefix | dl_markup/undo_redo.py:42-56 | after any interleaving of `undo(n)` and `redo(n)` calls on a consistent log, the recorded timeline is unchanged, the log stays consistent, and the scene is the base plus exactly the items of the timeline's first `len(undo)` commands |
| History.InsertConsistent | dl_markup/UndoRedo.py:82-88 | the raw insert of a command whose item the caller already put in the scene keeps the log consistent once that item leaves the base |
| History.InsertAddThenUndo | dl_markup/UndoRedo.py:58-99 | `undo(1)` right after adding a new item restores the scene and the undo stack, and `redo(1)` then gives back the log as it was after the add |
| History.InsertThenUndo | dl_markup/UndoRedo.py:58-88 | `undo(1)` after recording a command without executing it pops exactly that command onto an otherwise empty redo stack and removes its item from the scene anyway |
| History.InsertDropsRedo | dl_markup/UndoRedo.py:82-88 | after `undo(1)` and a new insertion, no `redo` changes anything |
| CylinderItem.CircleRect | dl_markup/CylinderItem.py:53-64 | each ellipse's rectangle is the `2r`-sided square centred on its endpoint |
| CylinderItem.CreateParts | dl_markup/CylinderItem.py:33-70 | the circles sit on begin and end; the quadrilateral has corners `B+rN, E+rN, E-rN, B-rN`, its short sides centred on the endpoints and its long sides parallel to the segment; all three parts share pen and brush |
| CylinderItem.BoundingRectAsWritten | dl_markup/CylinderItem.py:72-86 | the source's rectangle has origin `(min(bx,ex)-r, min(by,ey)-r)` and passes `max(bx,ex)+r`, `max(by,ey)+r` as width and height |
| CylinderItem.BoundingRectAsWrittenSymmetric | dl_markup/BrushTool.py:78-91 | the source's rectangle is the same for a reversed stroke and does not depend on pen or brush |
| CylinderItem.BoundingRectAsWrittenMissesEnd | dl_markup/CylinderItem.py:86 | for the stroke from (0, 0) to (10, 0) of radius 5 the source's rectangle ends at x = 10 while the end circle reaches x = 15 |
| CylinderItem.AsWrittenPassesFarCorner | dl_markup/scene.py:59-72 | the source's rectangle shares its origin with the intended one and carries the intended far corner in its width and height |
| CylinderItem.BoundingRect | dl_markup/CylinderItem.py:72-86 | the intended bounding box contains both circle squares and is the tightest box that does |
| CylinderItem.BoundingRectSymmetric | dl_markup/scene.py:59-72 | the intended box is the same for a reversed stroke and does not depend on pen or brush |
| CylinderItem.BoundingRectCoversCapsule | dl_markup/BrushTool.py:42-91 | for any unit (or zero) direction, the intended box covers both circles and all four corners of the quadrilateral |
| BrushTool.SetRadius | dl_markup/BrushTool.py:128-132 | the setter stores the admissible radius nearest the value asked for, which is the value itself exactly when it is admissible: [2, 25] here, at most 63 in the capping brush |
| BrushTool.NewBrush | dl_markup/BrushTool.py:112-122 | a new clamping brush is unanchored, not pressed, of radius 20 and of the given colour |
| BrushTool.NewToolsBrush | dl_markup/Tools.py:10-15 | a new capping brush is unanchored, not pressed, of radius 20 and green |
| BrushTool.Press | dl_markup/Tools.py:94-100 | a press anchors at the pointer and starts drawing; in the capping brush a right-button press turns the colour black |
| BrushTool.Release | dl_markup/BrushTool.py:214-221 | a release clears the anchor and the pressed flag and keeps radius and colour |
| BrushTool.KeyPress | dl_markup/BrushTool.py:223-234 | `+`/`=` raise the radius by one and `-` lower it by one while the result stays admissible; other keys change nothing |
| BrushTool.Move | dl_markup/BrushTool.py:168-206 | a move is ignored without an image or while the button is up; off the image it drops the anchor; otherwise it re-anchors at the pointer, committing exactly one stroke from the old anchor when there was one, and otherwise leaving the history untouched (for the capping brush, the corrected handler) |
| BrushTool.MoveAsWritten | dl_markup/Tools.py:54-92 | as written, a move fails exactly when the capping brush would commit a stroke, because the `CylinderItem` it imports rejects the `parent` keyword; every other move, and every move of the clamping brush, is the corrected handler's |
| BrushTool.CappedMoveRaises | dl_markup/Tools.py:80-88 | as written, the capping brush's first in-bounds move after a press fails, where the corrected handler commits the stroke from the press point |
| BrushTool.CappedNeverCommits | dl_markup/Tools.py:80-88 | as written, every move of the capping brush that completes leaves the history unchanged |
| BrushTool.MoveAll | dl_markup/Tools.py:54-92 | a sequence of moves never changes the variant, pressed flag, radius or colour |
| BrushTool.DragCommitsChain | dl_markup/BrushTool.py:168-206 | an anchored drag that stays on the image commits one stroke per move, in order, joined end to end, adds exactly their items and ends anchored at the last point (for the capping brush, with the corrected handler) |
| BrushTool.DragStrokes | dl_markup/BrushTool.py:168-206 | the undo-stack half of the drag: the strokes pushed, in order, and the final anchor |
| BrushTool.DragItems | dl_markup/BrushTool.py:168-206 | the scene half of the drag: the redo stack is emptied by any move and the scene gains exactly the drag's items |
| BrushTool.InitRadiusOk | dl_markup/Tools.py:15-23 | both brushes start inside their radius range |
| BrushTool.EventsKeepRadius | dl_markup/BrushTool.py:128-234 | no press, release, key or move takes the radius out of [2, 25] (clamping brush) or [1, 63] (capping brush) |
| BrushTool.MinusFloor | dl_markup/Tools.py:118-119 | `-` lowers the radius by one but never below 2 in the clamping brush or 1 in the capping brush |
| BrushTool.PlusCeiling | dl_markup/Tools.py:116-117 | `+` and `=` raise the radius by one up to 25 or 63, then stop |
| BrushTool.PlusMinusRoundTrip | dl_markup/BrushTool.py:228-231 | away from the range's ends, `+` then `-` and `-` then `+` restore the brush |
| BrushTool.PressThenMoveCommits | dl_markup/BrushTool.py:189-212 | the first in-bounds move after a press already commits the stroke from the press point (for the capping brush, with the corrected handler) |
| BrushTool.LeaveAndReturnCommitsNothing | dl_markup/BrushTool.py:181-192 | leaving the image and moving back commits nothing; the return only re-anchors |
| BrushTool.ReleaseStopsDrawing | dl_markup/Tools.py:62-63 | after a release no move changes the brush or the history |
| BrushTool.RightClickColourSticks | dl_markup/Tools.py:94-109 | the black colour of a right-button press survives the release and later presses |
| BrushTool.RunKeepsRadiusAndColour | dl_markup/Tools.py:94-119 | over any run of presses, releases, key presses and moves (by the corrected handler; the as-written failure changes neither radius nor colour) the radius stays in range, the clamping brush keeps its colour, and the capping brush ends black exactly when the run held a right-button press, otherwise with its colour unchanged |
| PolygonTool.Centers | dl_markup/PolygonTool.py:117-120 | the polygon's points are the vertex centres, one per vertex, in placement order |
| PolygonTool.Init | dl_markup/PolygonTool.py:53-57 | a new polygon tool has no vertices and the given colour |
| PolygonTool.NewVertex | dl_markup/PolygonTool.py:81-90 | a placed vertex is centred on the click and carries the given marker, its edge stub ends at local (1, 1), and its incoming edge is the previous vertex's outgoing edge, or none for the first |
| PolygonTool.Clear | dl_markup/PolygonTool.py:111-115 | `clear` removes exactly the markers from the scene, empties the list and leaves the history's stacks alone |
| PolygonTool.DrawPolygon | dl_markup/PolygonTool.py:117-126 | `drawPolygon` commits exactly one polygon through the centres in the tool's colour and adds it to the scene |
| PolygonTool.Press | dl_markup/PolygonTool.py:59-91 | on empty space a press appends one vertex and adds its marker to the scene, but only when an image is loaded; the history's stacks are untouched; a hit including the first vertex commits the polygon, then removes the markers and empties the list; any other rectangle hit changes nothing; a rectangle hit with no vertex placed is the source's `IndexError` |
| PolygonTool.Move | dl_markup/PolygonTool.py:93-100 | a move aims the last vertex's edge at the pointer and changes no other vertex; with no vertex it does nothing |
| PolygonTool.DragVertex | dl_markup/PolygonTool.py:34-48 | dragging a vertex re-aims its incoming edge at the new centre and keeps its own edge's far end in place; no other vertex changes |
| PolygonTool.PlaceKeepsLinked | dl_markup/PolygonTool.py:81-82 | appending a vertex keeps every vertex's incoming edge equal to its predecessor's outgoing edge |
| PolygonTool.PlaceAllAppends | dl_markup/PolygonTool.py:81-91 | clicks on empty space append one vertex per click, centred on the clicks in order, keep the chain linked and add only markers to the scene (none before an image is loaded), never to the history |
| PolygonTool.MoveKeepsLinked | dl_markup/PolygonTool.py:93-100 | a move keeps the chain linked and every marker and centre in place |
| PolygonTool.DragInLinkedChain | dl_markup/PolygonTool.py:40-48 | in a linked chain a drag re-aims the predecessor's edge, keeps its own far end and touches no other vertex |
| PolygonTool.CloseCommitsPolygon | dl_markup/PolygonTool.py:73-78 | a click hitting the first vertex commits exactly the polygon through all centres, whatever the vertex count, and resets the tool |
| PolygonTool.PlaceConsistent | dl_markup/PolygonTool.py:84-91 | placing a fresh marker keeps the history consistent, with the marker counted in the base when an image is loaded and the base unchanged otherwise |
| PolygonTool.UnloadedNeverCloses | dl_markup/PolygonTool.py:59-91 | before an image is loaded no hit can report a vertex, and every press leaves the history alone and keeps all markers off the scene, so the polygon can never be closed |
| PolygonTool.CloseConsistent | dl_markup/PolygonTool.py:111-126 | closing keeps the history consistent over the base without the markers |
| PolygonTool.MarkersOffHistory | dl_markup/PolygonTool.py:111-115 | removing base-scene markers keeps the history consistent over the smaller base |
| MarkerTool.Init | dl_markup/Tools.py:127-132 | the marker tool starts unpressed and green |
| MarkerTool.Press | dl_markup/Tools.py:134-150 | a press sets the pressed flag; with exactly two items under the click it adds one 6 x 6 marker centred on the click in the tool's colour; the history's stacks are never touched |
| MarkerTool.Release | dl_markup/Tools.py:155-157 | a release clears the pressed flag |
| MarkerTool.PressReleaseRestores | dl_markup/Tools.py:134-157 | a press followed by a release leaves the tool as it was |
| MarkerTool.PressConsistent | dl_markup/Tools.py:140-146 | a marker keeps the history consistent, counted in the base |
| Scenarios.Fixture | tests/fixtures.py:8-18 | the fixture's log holds the ellipse then the line item, both in the scene, with nothing to redo |
| Scenarios.UndoTwo | dl_markup/undo_redo.py:42-48 | with two distinct items recorded, `undo(1)` takes off the second, another takes off the first, `undo(2)` takes off both, and undoing an empty stack changes nothing |
| Scenarios.RedoTwo | dl_markup/undo_redo.py:50-56 | with both undone, `redo(1)` brings back the first, another the second, `redo(2)` both, and redoing with nothing undone changes nothing |
| Scenarios.TestUndo1 | tests/test_UndoRedo.py:4-10 | one undo leaves only the first item |
| Scenarios.TestUndo2 | tests/test_UndoRedo.py:13-18 | two undos empty the scene |
| Scenarios.TestRedo1 | tests/test_UndoRedo.py:21-29 | two undos then one redo leave only the first item |
| Scenarios.TestRedo2 | tests/test_UndoRedo.py:32-41 | two undos then two redos bring both items back |
| Scenarios.TestUndoRedoMixed | tests/test_undo_redo.py:8-30 | the mixed sequence of over-requested undos and redos ends with the original log and both items present |
| Scenarios.DragUndoRedo | dl_markup/BrushTool.py:168-212 | a drag through (0, 0), (10, 0), (10, 10) commits the two strokes (for the capping brush, with the corrected handler); two single undos take them off in reverse order and `redo(2)` restores the very same log |
| Scenarios.UndoThenDrawDiscardsRedo | dl_markup/undo_redo.py:58-67 | after three strokes and two undos, a new stroke leaves the first and the new one, and a redo brings nothing back |
| Scenarios.ClosePolygon | dl_markup/PolygonTool.py:59-126 | with an image loaded, placing vertices on an empty scene and clicking the first commits one polygon through the clicks in order and leaves only it in the scene |
| Scenarios.ClosePolygonOfThree | dl_markup/PolygonTool.py:73-78 | three clicks and a click on the first marker commit the triangle through them |

## Left out

- Rendering: `paint`, the cursor pixmaps (`cursor`, `_CircleCursor`) and the `setCursor` call in the radius setters are Qt drawing calls. So are the brushes, pens and stacking of the child items.
- Floating point: coordinates and radii are exact reals. `QVector2D.normalize` needs a square root, so the direction is an input. `BrushTool.Move` builds strokes without a direction, because the stroke stores only its endpoints and radius.
- Coordinate mapping: `mapToScene` and the zoom arithmetic are Qt view transforms. Points arrive in scene coordinates.
- Hit testing: `scene.items(point)` and the `isinstance` filter are Qt queries. They are inputs: the hit vertex indices and an "other rectangle" flag for `PolygonTool.Press`, and the item count for `MarkerTool.Press`.
- Object identity: an item id stands for each new Python graphics object. Fresh ids are supplied by the caller, and the consistency lemmas assume they are fresh.
- Parenting: an item built with `parent=background_item` is in the scene from construction once an image is loaded, and in no scene before that (`background_item` is `None`); `PolygonTool.Press` takes whether an image is loaded as an input. `MarkerTool.Press` needs no such input: it places a marker only when exactly two items lie under the click, and before an image is loaded neither the image item nor the background item is in the scene, so that test cannot pass through them. The model puts it in the scene at the `execute` that follows it in the same handler. The capping brush's `parent=` keyword is rejected by the `CylinderItem` of dl_markup/CylinderItem.py that it imports (see Findings). Qt's `addItem` and `removeItem` are idempotent, so a set models the scene.
- Edges of the polygon tool: each edge line is a child of its vertex and leaves the scene with it, so only the vertex markers are tracked.
- Empty handlers: `mouseMoveEvent` and `keyPressEvent` of the marker `Polygon` in dl_markup/Tools.py, and `mouseReleaseEvent` and `keyPressEvent` of dl_markup/PolygonTool.py, do nothing. `cursor()` returns a constant.
- Console output: the `print` calls in the key, press and cursor code print text and have no other effect.
- Deleters: the `radius` deleter is never called in the repository.
- Application wiring: `Canvas` event forwarding, `Canvas.clear` (`scene.clear()` then the history's `clear`), `changeTool`, palettes, list models, file dialogs and image loading are application plumbing outside the drawing core.
- Strokes' bounding box: `BoundingRect` is stated for non-negative radii. The brushes' radii are always positive.
- PolygonTool.DragVertex: says nothing about far ends when a vertex's incoming edge is its own, which no sequence of presses builds (`PolygonTool.DragInLinkedChain` covers every linked chain).
- BrushTool.KeyPress: its own contract covers only the steps that stay admissible; `BrushTool.MinusFloor` and `BrushTool.PlusCeiling` state the saturating cases.

## Findings

| source | as written | input that shows it | evidently intended | confidence | as-written member | corrected member |
|---|---|---|---|---|---|---|
| dl_markup/CylinderItem.py:86 (also dl_markup/BrushTool.py:91 and dl_markup/scene.py:72) | `QRectF(min(x), min(y), max(x), max(y))` passes the largest coordinates where Qt expects width and height | stroke from (0, 0) to (10, 0), radius 5: the rectangle spans x from -5 to 10, but the circle around the end reaches x = 15 | width `max(x) - min(x)` and height `max(y) - min(y)`, so the box covers the capsule | not executed | CylinderItem.BoundingRectAsWritten, CylinderItem.BoundingRectAsWrittenMissesEnd | CylinderItem.BoundingRect, CylinderItem.BoundingRectCoversCapsule |
| dl_markup/Tools.py:80-87 | the capping brush builds its stroke with the `CylinderItem` of dl_markup/CylinderItem.py (imported at dl_markup/Tools.py:5) and passes `parent=`, which that constructor (dl_markup/CylinderItem.py:10-16) does not accept | press the capping brush at (1, 1) on a loaded image, then move to (5, 5): the constructor call raises `TypeError` before any stroke is recorded or the anchor moves | commit the stroke as the clamping brush does, whose own `CylinderItem` forwards extra arguments (dl_markup/BrushTool.py:16-33) | not executed | BrushTool.MoveAsWritten, BrushTool.CappedMoveRaises, BrushTool.CappedNeverCommits | BrushTool.Move, BrushTool.PressThenMoveCommits, BrushTool.DragCommitsChain |
