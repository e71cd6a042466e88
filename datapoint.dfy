/**
 * A marker on a chart for one (x, y) data value. Setting its size derives a padded hit
 * box; setting its coordinate places that box around the coordinate; pointer enter and
 * exit events toggle a hover flag; drawing emits the glyph the icon type and the hover
 * state select, as a list of abstract draw commands.
 */
module Charts {
  import opened Godot

  /** The two marker shapes. Being a datatype, a third value cannot exist. */
  datatype MarkerIcon = Circle | Cross

  /** The two glyph textures the marker loads. */
  datatype Texture = GraphMarkerCircle | GraphMarkerCross

  /** The host toolkit's drawing calls the marker makes, as values. */
  datatype DrawCommand =
    | DrawCircle(position: Vector2, radius: real, colour: Color)
    | DrawTextureRect(texture: Texture, rect: Rect2, tile: bool, modulate: Color)

  /** The hit box is larger than the drawn glyph by this much in each dimension. */
  const HitBoxPadding: real := 10.0

  /** The size both constructors give a marker. */
  const DefaultSize: real := 7.0

  /** The hit box (`RectSize`) the `Size` setter derives from a size. */
  function HitBox(size: real): Vector2
  {
    Vector2(size + HitBoxPadding, size + HitBoxPadding)
  }

  /** The box origin (`RectPosition`) the `Coordinate` setter derives: the box is centred on the coordinate. */
  function BoxOrigin(coordinate: Vector2, rectSize: Vector2): (origin: Vector2)
    ensures Add(origin, Half(rectSize)) == coordinate
  {
    Sub(coordinate, Half(rectSize))
  }

  /** The rectangle a glyph texture is drawn into: `size` square, centred in the hit box. */
  function GlyphRect(rectSize: Vector2, size: real): (rect: Rect2)
    ensures rect.size == Vector2(size, size)
    ensures Add(rect.position, Half(rect.size)) == Half(rectSize)
  {
    Rect2(Sub(Half(rectSize), Half(Vector2(size, size))), Vector2(size, size))
  }

  /** The texture each shape is drawn with. */
  function GlyphTexture(icon: MarkerIcon): Texture
  {
    match icon
    case Circle => GraphMarkerCircle
    case Cross => GraphMarkerCross
  }

  /**
   * With the hit box the `Size` setter derives, the glyph's origin is (5, 5) for every size;
   * for a non-negative size the glyph lies inside the hit box with 5 units to spare on every
   * side. A negative size gives a glyph of negative extent, which lies inside nothing.
   */
  lemma GlyphInsideHitBox(size: real)
    ensures GlyphRect(HitBox(size), size).position == Vector2(5.0, 5.0)
    ensures InsideWithMargin(GlyphRect(HitBox(size), size), Rect2(Vector2(0.0, 0.0), HitBox(size)), 5.0)
      <==> 0.0 <= size
  {
  }

  /**
   * A box placed on a coordinate stays centred on it after its extent changes only if
   * the extent did not change: setting `Size` does not re-centre the marker.
   */
  lemma ResizeKeepsCentreIffSameBox(coordinate: Vector2, oldBox: Vector2, newBox: Vector2)
    ensures Add(BoxOrigin(coordinate, oldBox), Half(newBox)) == coordinate <==> newBox == oldBox
  {
  }

  /** Setting `Size` after `Coordinate` to a different size moves the centre off the coordinate. */
  lemma ResizeAfterPlacingMovesCentre(coordinate: Vector2, oldSize: real, newSize: real)
    requires oldSize != newSize
    ensures Add(BoxOrigin(coordinate, HitBox(oldSize)), Half(HitBox(newSize))) != coordinate
  {
    ResizeKeepsCentreIffSameBox(coordinate, HitBox(oldSize), HitBox(newSize));
  }

  class DataPoint {
    var isMouseOver: bool
    var coordinate: Vector2
    var size: real
    /** The control's own extent and origin, as the host toolkit keeps them. */
    var RectSize: Vector2
    var RectPosition: Vector2

    var IconType: MarkerIcon
    var Value: Vector2
    var MarkerFillerColour: Color
    var MarkerFillerHighlightedColour: Color
    var MarkerColour: Color
    /** False hides the glyph while the marker stays hoverable. */
    var Draw: bool

    /** The hit box is the one the last `Size` assignment derived. */
    ghost predicate HitBoxMatchesSize()
      reads this
    {
      RectSize == HitBox(size)
    }

    /** The hit box is centred on the coordinate. */
    ghost predicate Centred()
      reads this
    {
      Add(RectPosition, Half(RectSize)) == coordinate
    }

    /** The state both constructors share, apart from `Value`. */
    ghost predicate AsConstructed()
      reads this
    {
      && size == DefaultSize && RectSize == Vector2(17.0, 17.0) && HitBoxMatchesSize()
      && IconType == Circle && Draw && !isMouseOver
      && coordinate == Vector2(0.0, 0.0) && RectPosition == Vector2(0.0, 0.0)
      && MarkerFillerColour == Rgb(0.0, 0.13, 0.14)
      && MarkerFillerHighlightedColour == Rgb(0.07, 1.0, 0.84)
      && MarkerColour == Color(0.0, 0.0, 0.0, 0.0)
    }

    constructor ()
      ensures AsConstructed() && Value == Vector2(0.0, 0.0)
    {
      isMouseOver := false;
      coordinate := Vector2(0.0, 0.0);
      size := 0.0;
      RectSize, RectPosition := Vector2(0.0, 0.0), Vector2(0.0, 0.0);
      Value := Vector2(0.0, 0.0);
      MarkerFillerColour := Rgb(0.0, 0.13, 0.14);
      MarkerFillerHighlightedColour := Rgb(0.07, 1.0, 0.84);
      MarkerColour := Color(0.0, 0.0, 0.0, 0.0);
      Draw := true;
      IconType := Circle;
      new;
      SetSize(DefaultSize);
    }

    constructor WithValue(xValue: real, yValue: real)
      ensures AsConstructed() && Value == Vector2(xValue, yValue)
    {
      isMouseOver := false;
      coordinate := Vector2(0.0, 0.0);
      size := 0.0;
      RectSize, RectPosition := Vector2(0.0, 0.0), Vector2(0.0, 0.0);
      Value := Vector2(xValue, yValue);
      MarkerFillerColour := Rgb(0.0, 0.13, 0.14);
      MarkerFillerHighlightedColour := Rgb(0.07, 1.0, 0.84);
      MarkerColour := Color(0.0, 0.0, 0.0, 0.0);
      Draw := true;
      IconType := Circle;
      new;
      SetSize(DefaultSize);
    }

    function Coordinate(): Vector2
      reads this
    {
      coordinate
    }

    function Size(): real
      reads this
    {
      size
    }

    /** The `Coordinate` setter: stores the coordinate and centres the current hit box on it. */
    method SetCoordinate(c: Vector2)
      modifies this`coordinate, this`RectPosition
      ensures coordinate == c && RectPosition == BoxOrigin(c, RectSize)
      ensures Centred()
    {
      coordinate := c;
      RectPosition := Sub(c, Half(RectSize));
    }

    /**
     * The `Size` setter: stores the size, negative values included, and derives the padded
     * hit box. The frame leaves the coordinate and the box origin as they were.
     */
    method SetSize(s: real)
      modifies this`size, this`RectSize
      ensures size == s && RectSize == HitBox(s)
      ensures HitBoxMatchesSize()
    {
      size := s;
      RectSize := Vector2(s + HitBoxPadding, s + HitBoxPadding);
    }

    /** Pointer entered the hit box. */
    method OnMouseEnter()
      modifies this`isMouseOver
      ensures isMouseOver
    {
      isMouseOver := true;
    }

    /** Pointer left the hit box. */
    method OnMouseExit()
      modifies this`isMouseOver
      ensures !isMouseOver
    {
      isMouseOver := false;
    }

    /**
     * `_Draw`: the commands one repaint emits. `lightened` stands for `Color.Lightened`.
     * Nothing is drawn while `Draw` is false. Otherwise the last command is the shape's
     * glyph texture in the glyph rectangle; a circle is preceded by a filled disc that
     * coincides with the glyph, a cross has no disc. Hovering selects colours only: the
     * geometry stated here is independent of it.
     */
    function DrawCommands(lightened: (Color, real) -> Color): (cmds: seq<DrawCommand>)
      reads this
      ensures !Draw ==> cmds == []
      ensures Draw ==> |cmds| == (if IconType == Circle then 2 else 1)
      ensures Draw ==>
        var glyph := cmds[|cmds| - 1];
        && glyph.DrawTextureRect? && glyph.texture == GlyphTexture(IconType)
        && glyph.rect == GlyphRect(RectSize, size) && !glyph.tile
      ensures forall k :: 0 <= k < |cmds| ==> cmds[k].DrawCircle? ==> IconType == Circle && k == 0
      ensures Draw && IconType == Circle ==>
        var glyph := GlyphRect(RectSize, size);
        && cmds[0].DrawCircle?
        && cmds[0].position == Add(glyph.position, Half(glyph.size))
        && 2.0 * cmds[0].radius == glyph.size.x
        && cmds[0].colour == (if isMouseOver then MarkerFillerHighlightedColour else MarkerFillerColour)
        && cmds[1].modulate == MarkerColour
      ensures Draw && IconType == Cross ==>
        cmds[0].modulate == (if isMouseOver then lightened(MarkerColour, 0.5) else MarkerColour)
    {
      if !Draw then []
      else
        var vectorSize := Vector2(size, size);
        var rect := Rect2(Sub(Half(RectSize), Half(vectorSize)), vectorSize);
        match IconType
        case Circle =>
          var filler := if isMouseOver then MarkerFillerHighlightedColour else MarkerFillerColour;
          [DrawCircle(Half(RectSize), size / 2.0, filler),
           DrawTextureRect(GraphMarkerCircle, rect, false, MarkerColour)]
        case Cross =>
          var colour := if isMouseOver then lightened(MarkerColour, 0.5) else MarkerColour;
          [DrawTextureRect(GraphMarkerCross, rect, false, colour)]
    }
  }
}
