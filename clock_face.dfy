/** One repaint of the clock panel, as the list of drawing instructions it
    issues: the dial circle, the three hands in the order hour, minute,
    second, and the centre dot on top. Hand tips stay symbolic: a hand is an
    angle and a length from the centre, not a pair of pixel coordinates. */
module ClockFace {
  import opened TimeSample
  import opened HandAngles

  /** The dial radius, in pixels. */
  const Radius: int := 150
  /** The stroke width of the dial circle. */
  const DialStroke: int := 4
  /** Half the side of the centre dot's bounding box. */
  const DotRadius: int := 5
  /** The size the window gives the clock panel. */
  const PanelWidth: nat := 400
  const PanelHeight: nat := 400

  datatype Color = Black | Red

  datatype Point = Point(x: int, y: int)

  /** An axis-aligned box given by its top-left corner and its size, the way
      ovals are drawn and filled. */
  datatype Box = Box(x: int, y: int, width: int, height: int)

  /** A hand: the direction of its tip (degrees clockwise from 12), its length
      in pixels, its stroke width and its colour. */
  datatype Hand = Hand(angle: real, length: real, stroke: int, color: Color)

  datatype Command =
    | Circle(bounds: Box, stroke: int, color: Color)  // outline of an oval
    | Needle(origin: Point, hand: Hand)               // a line from the origin to the hand's tip
    | Disc(bounds: Box, color: Color)                 // a filled oval

  /** The panel's centre, halving each side with integer division. */
  function Centre(width: nat, height: nat): (c: Point)
    ensures 0 <= width - 2 * c.x <= 1 && 0 <= height - 2 * c.y <= 1
  {
    Point(width / 2, height / 2)
  }

  /** The bounding box of the circle of radius `rad` about `c`. */
  function BoxAround(c: Point, rad: int): (b: Box)
    ensures 2 * b.x + b.width == 2 * c.x && 2 * b.y + b.height == 2 * c.y
    ensures b.width == b.height == 2 * rad
  {
    Box(c.x - rad, c.y - rad, rad * 2, rad * 2)
  }

  /** The frame painted for reading `t` on a panel of the given size. Each
      hand's length is a fixed fraction of the radius. */
  function Frame(width: nat, height: nat, t: Time): (f: seq<Command>)
    ensures |f| == 5
    ensures f[0].Circle? && f[4].Disc?
    ensures forall i :: 1 <= i < 4 ==> f[i].Needle? && f[i].origin == Centre(width, height)
  {
    var c := Centre(width, height);
    [ Circle(BoxAround(c, Radius), DialStroke, Black),
      Needle(c, Hand(HourAngle(t), Radius as real * 0.5, 6, Black)),
      Needle(c, Hand(MinuteAngle(t), Radius as real * 0.7, 4, Black)),
      Needle(c, Hand(SecondAngle(t), Radius as real * 0.9, 2, Red)),
      Disc(BoxAround(c, DotRadius), Black) ]
  }

  /** The reading a frame shows, from its hands in drawing order; `None` for
      a list of instructions that is not shaped like a clock frame. */
  function ReadFrame(f: seq<Command>): Option<Time> {
    if |f| == 5 && f[1].Needle? && f[2].Needle? && f[3].Needle? then
      Some(ReadClock(Angles(f[1].hand.angle, f[2].hand.angle, f[3].hand.angle)))
    else
      None
  }

  datatype Option<T> = None | Some(value: T)

  /** The hands, in drawing order: hour (half the radius, width 6, black),
      minute (0.7 of the radius, width 4, black), second (0.9 of the radius,
      width 2, red), at the angles of the reading. */
  lemma HandDescriptors(width: nat, height: nat, t: Time)
    ensures Frame(width, height, t)[1].hand == Hand(HourAngle(t), 75.0, 6, Black)
    ensures Frame(width, height, t)[2].hand == Hand(MinuteAngle(t), 105.0, 4, Black)
    ensures Frame(width, height, t)[3].hand == Hand(SecondAngle(t), 135.0, 2, Red)
  {
  }

  /** The hands are told apart by size: the later a hand is drawn, the longer
      and thinner it is, and every tip stays inside the dial. */
  lemma HandsNestInsideDial(width: nat, height: nat, t: Time)
    ensures forall i, j :: 1 <= i < j < 4 ==>
      Frame(width, height, t)[i].hand.length < Frame(width, height, t)[j].hand.length &&
      Frame(width, height, t)[i].hand.stroke > Frame(width, height, t)[j].hand.stroke
    ensures forall i :: 1 <= i < 4 ==>
      0.0 < Frame(width, height, t)[i].hand.length < Radius as real
  {
  }

  /** The dial is the circle of radius `Radius` about the centre, drawn black
      with stroke 4; the dot is the 10-pixel disc about the centre, drawn after
      the hands so that it covers their common origin. */
  lemma DialAndDot(width: nat, height: nat, t: Time)
    ensures Frame(width, height, t)[0] ==
      Circle(BoxAround(Centre(width, height), Radius), 4, Black)
    ensures Frame(width, height, t)[4] ==
      Disc(BoxAround(Centre(width, height), DotRadius), Black)
    ensures BoxAround(Centre(width, height), DotRadius).width == 10
  {
  }

  /** On the 400 by 400 panel: centre (200, 200), dial box (50, 50, 300, 300)
      and dot box (195, 195, 10, 10). */
  lemma ReferencePanel(t: Time)
    ensures Centre(PanelWidth, PanelHeight) == Point(200, 200)
    ensures Frame(PanelWidth, PanelHeight, t)[0].bounds == Box(50, 50, 300, 300)
    ensures Frame(PanelWidth, PanelHeight, t)[4].bounds == Box(195, 195, 10, 10)
  {
  }

  predicate BoxInside(b: Box, width: nat, height: nat) {
    0 <= b.x && 0 <= b.y && b.x + b.width <= width && b.y + b.height <= height
  }

  /** The dial fits on the panel exactly when both sides are at least its
      diameter; so it does on the 400 by 400 panel. */
  lemma DialFitsPanel(width: nat, height: nat, t: Time)
    ensures BoxInside(Frame(width, height, t)[0].bounds, width, height) <==>
      width >= 2 * Radius && height >= 2 * Radius
  {
  }

  /** A frame shows its reading: reading the hands of the frame painted for a
      valid `t` gives `t` back on the 12-hour dial. */
  lemma ReadFrameInvertsFrame(width: nat, height: nat, t: Time)
    requires Valid(t)
    ensures ReadFrame(Frame(width, height, t)) == Some(Time(DialHour(t), t.minute, t.second))
  {
  }

  /** Two readings paint the same frame exactly when they agree on the
      12-hour dial: readings twelve hours apart look alike, and no two other
      readings do. */
  lemma SameFrameIffSameDialTime(width: nat, height: nat, t1: Time, t2: Time)
    requires Valid(t1) && Valid(t2)
    ensures Frame(width, height, t1) == Frame(width, height, t2) <==>
      DialHour(t1) == DialHour(t2) && t1.minute == t2.minute && t1.second == t2.second
  {
  }
}
