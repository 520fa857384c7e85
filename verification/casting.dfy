/**
 The actors of the game: the banner, the robot the player steers and the
 falling objects, each a glyph drawn at an integer position that advances by
 its velocity every frame.
 */
module Casting {

  /** An integer screen coordinate; equality is exact, as in `Point.equals`. */
  datatype Point = Point(x: int, y: int)

  datatype Color = Color(r: int, g: int, b: int)

  datatype Actor = Actor(text: string, fontSize: int, color: Color, position: Point, velocity: Point)

  /**
   The position an actor reaches on `move_next`, given its position, its
   velocity and the canvas width and height. The body of `move_next` is not
   part of this model, so the rule is a parameter of every operation that moves.
   */
  type Mover = (Point, Point, int, int) -> Point

  /** The glyph worth a point; every other glyph costs one. */
  const RewardGlyph: string := "*"

  /** The glyph whose objects alone may remain when the game ends. */
  const PenaltyGlyph: string := "O"

  /** `move_next`: only the position changes, to the one the mover picks. */
  function MoveNext(a: Actor, move: Mover, maxX: int, maxY: int): Actor {
    a.(position := move(a.position, a.velocity, maxX, maxY))
  }

  /** `FallingObject.calculate_points`: a pure function of the glyph. */
  function CalculatePoints(a: Actor): (p: int)
    ensures p == 1 || p == -1
    ensures p == 1 <==> a.text == RewardGlyph
  {
    if a.text == RewardGlyph then 1 else -1
  }

  /** Objects with the same glyph score alike, whatever else differs. */
  lemma PointsDependOnlyOnGlyph(a: Actor, b: Actor)
    requires a.text == b.text
    ensures CalculatePoints(a) == CalculatePoints(b)
  {
  }

  /** The total of `calculate_points` over a sequence of objects. */
  function PointsOf(s: seq<Actor>): (p: int)
    ensures -|s| <= p <= |s|
  {
    if s == [] then 0 else CalculatePoints(s[0]) + PointsOf(s[1..])
  }

  /** The number of objects carrying the reward glyph. */
  function RewardCount(s: seq<Actor>): (n: nat)
    ensures n <= |s|
  {
    if s == [] then 0
    else (if s[0].text == RewardGlyph then 1 else 0) + RewardCount(s[1..])
  }

  /** The total is the rewards counted positively and the rest negatively. */
  lemma {:induction false} PointsOfCountsGlyphs(s: seq<Actor>)
    ensures PointsOf(s) == RewardCount(s) - (|s| - RewardCount(s))
  {
    if s != [] {
      PointsOfCountsGlyphs(s[1..]);
    }
  }

  lemma {:induction false} PointsOfAppend(a: seq<Actor>, b: seq<Actor>)
    ensures PointsOf(a + b) == PointsOf(a) + PointsOf(b)
  {
    if a == [] {
      assert a + b == b;
    } else {
      assert (a + b)[1..] == a[1..] + b;
      PointsOfAppend(a[1..], b);
    }
  }

  /**
   The cast with its three groups fixed: exactly one banner, exactly one robot
   and an ordered sequence of falling objects.
   */
  datatype Cast = Cast(banner: Actor, robot: Actor, objects: seq<Actor>)
}
