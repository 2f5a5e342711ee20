/**
 What a history command adds to the scene: a brush stroke (`CylinderItem`) or a
 closed polygon (`QGraphicsPolygonItem`) built by the polygon tool.
 */
module Shapes {
  import opened Geometry
  import CylinderItem

  datatype Shape =
    | Stroke(cylinder: CylinderItem.Cylinder)
    | Polygon(points: seq<Point>, color: Color)
}
