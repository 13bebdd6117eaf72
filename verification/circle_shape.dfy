/**
 * The circle record the circle tool builds on a press and resizes while the
 * mouse is dragged. Centre, colour and fill type are fixed at construction;
 * the radius is the only thing that changes.
 */
module CircleShapes {
  import opened Raster
  import opened Geometry

  datatype CircleShape = CircleShape(centerX: real, centerY: real, radius: real, color: RGB, fillType: FillPattern)

  /** `setRadius`: replaces the radius and nothing else. */
  function SetRadius(c: CircleShape, radius: real): (c': CircleShape)
    ensures c'.radius == radius
    ensures c'.centerX == c.centerX && c'.centerY == c.centerY
    ensures c'.color == c.color && c'.fillType == c.fillType
  {
    c.(radius := radius)
  }

  /** Only the last of two `setRadius` calls is observable. */
  lemma SetRadiusLastWins(c: CircleShape, r1: real, r2: real)
    ensures SetRadius(SetRadius(c, r1), r2) == SetRadius(c, r2)
  {
  }

  /** A sequence of `setRadius` calls, as successive drag events make them. */
  function SetRadii(c: CircleShape, radii: seq<real>): CircleShape
    decreases |radii|
  {
    if |radii| == 0 then c else SetRadii(SetRadius(c, radii[0]), radii[1..])
  }

  /**
   * However many times the radius is set, the getters for centre, colour and
   * fill type keep returning what the constructor stored, and the radius is
   * the last value set.
   */
  lemma {:induction false} FixedFieldsNeverChange(c: CircleShape, radii: seq<real>)
    ensures var c' := SetRadii(c, radii);
      && c'.centerX == c.centerX && c'.centerY == c.centerY
      && c'.color == c.color && c'.fillType == c.fillType
      && c'.radius == if |radii| == 0 then c.radius else radii[|radii| - 1]
    decreases |radii|
  {
    if |radii| > 0 {
      FixedFieldsNeverChange(SetRadius(c, radii[0]), radii[1..]);
    }
  }
}
