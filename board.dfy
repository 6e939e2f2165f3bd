/** The optional value used where the game keeps `null` (no frog found, no sound playing). */
module Wrappers {
  datatype Option<+T> = None | Some(value: T)
}

/**
 * The board of one round: frog species, placed frogs and the squared
 * distances the game compares against its radii.
 *
 * Board coordinates are percentages of the play area. Frogs sit on integer
 * points; the pointer is anywhere (a real). Every comparison the game makes
 * is `sqrt(dx² + dy²) < c` for a constant c, which holds exactly when
 * `dx² + dy² < c²`, so the model compares squared distances and never
 * takes a square root.
 */
module Board {

  /** A species the game can place: its name and the path of its call. */
  datatype Species = Species(kind: string, sound: string)

  /** One placed frog (`FrogPosition` in the game page). */
  datatype Frog = Frog(id: nat, x: int, y: int, kind: string, sound: string)

  /** The species roster the layout draws non-target frogs from. */
  const FrogTypes: seq<Species> := [
    Species("黑眶蟾蜍", "/frog_sound/黑眶蟾蜍.mp3"),
    Species("澤蛙", "/frog_sound/澤蛙.mp3"),
    Species("台北樹蛙", "/frog_sound/台北樹蛙.mp3")
  ]

  /** Minimum distance between two placed frogs. */
  const MinDistance: int := 20
  /** Distance under which the nearest frog's call is heard. */
  const SoundThreshold: int := 15
  /** Distance under which a click lands on a frog. */
  const HitRadius: int := 10

  /** Placement area: x in [10, 90) and y in [15, 85), as integers. */
  predicate InBoard(x: int, y: int) {
    10 <= x <= 89 && 15 <= y <= 84
  }

  /** Squared distance between a frog and an integer board point. */
  function Dist2(f: Frog, x: int, y: int): (d: int)
    ensures d >= 0
    ensures d == 0 <==> f.x == x && f.y == y
  {
    (f.x - x) * (f.x - x) + (f.y - y) * (f.y - y)
  }

  /** Squared distance between a frog and the pointer. */
  function PointerDist2(f: Frog, px: real, py: real): (d: real)
    ensures d >= 0.0
    ensures f.x as real == px && f.y as real == py ==> d == 0.0
  {
    var dx, dy := f.x as real - px, f.y as real - py;
    dx * dx + dy * dy
  }
}
