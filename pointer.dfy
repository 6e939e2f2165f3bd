/**
 * The two scans the game page runs over the frog list for a pointer
 * position: the nearest frog (`checkFrogProximity`) and the frog a click
 * lands on (`handleClick`). Each is a `forEach` that updates a local
 * variable; each is specified by a function over growing prefixes of the
 * list, in the scan's own order.
 */
module Pointer {
  import opened Wrappers
  import opened Board

  /**
   * The frog the nearest-frog scan ends on: a frog replaces the current
   * choice only when strictly nearer, so the earliest of equally near frogs
   * is kept. `None` exactly for an empty list (`minDistance` stays Infinity).
   */
  function Nearest(frogs: seq<Frog>, px: real, py: real): (r: Option<nat>)
    ensures r.None? <==> |frogs| == 0
    ensures r.Some? ==> r.value < |frogs|
    ensures r.Some? ==> forall j :: 0 <= j < |frogs| ==>
      PointerDist2(frogs[r.value], px, py) <= PointerDist2(frogs[j], px, py)
    ensures r.Some? ==> forall j :: 0 <= j < r.value ==>
      PointerDist2(frogs[j], px, py) > PointerDist2(frogs[r.value], px, py)
  {
    if |frogs| == 0 then None
    else
      var last := |frogs| - 1;
      var best := Nearest(frogs[..last], px, py);
      if best.None? || PointerDist2(frogs[last], px, py) < PointerDist2(frogs[best.value], px, py)
      then Some(last)
      else best
  }

  /** The nearest-frog `forEach` of `checkFrogProximity`. */
  method NearestFrog(frogs: seq<Frog>, px: real, py: real) returns (nearest: Option<nat>, minDistance2: real)
    ensures nearest == Nearest(frogs, px, py)
    ensures nearest.Some? ==> minDistance2 == PointerDist2(frogs[nearest.value], px, py)
  {
    nearest, minDistance2 := None, 0.0;
    for i := 0 to |frogs|
      invariant nearest == Nearest(frogs[..i], px, py)
      invariant nearest.Some? ==> minDistance2 == PointerDist2(frogs[nearest.value], px, py)
    {
      assert frogs[..i + 1][..i] == frogs[..i];
      var d := PointerDist2(frogs[i], px, py);
      if nearest.None? || d < minDistance2 {
        nearest, minDistance2 := Some(i), d;
      }
    }
    assert frogs[..|frogs|] == frogs;
  }

  /**
   * The pointer is nearer to frog f than `radius`: a click there lands on
   * it (radius 10).
   */
  function Within(f: Frog, px: real, py: real, radius: int): (b: bool)
    ensures radius == 0 ==> !b
    ensures radius != 0 && f.x as real == px && f.y as real == py ==> b
  {
    PointerDist2(f, px, py) < (radius * radius) as real
  }

  /**
   * The frog a click resolves to: every frog within the hit radius
   * overwrites the choice, so the last such frog in list order wins.
   */
  function Hit(frogs: seq<Frog>, px: real, py: real): (r: Option<nat>)
    ensures r.Some? ==> r.value < |frogs| && Within(frogs[r.value], px, py, HitRadius)
    ensures r.Some? ==> forall j :: r.value < j < |frogs| ==> !Within(frogs[j], px, py, HitRadius)
    ensures r.None? ==> forall j :: 0 <= j < |frogs| ==> !Within(frogs[j], px, py, HitRadius)
  {
    if |frogs| == 0 then None
    else
      var last := |frogs| - 1;
      if Within(frogs[last], px, py, HitRadius) then Some(last)
      else Hit(frogs[..last], px, py)
  }

  /** The click-resolution `forEach` of `handleClick`. */
  method ClickedFrog(frogs: seq<Frog>, px: real, py: real) returns (clicked: Option<nat>)
    ensures clicked == Hit(frogs, px, py)
  {
    clicked := None;
    for i := 0 to |frogs|
      invariant clicked == Hit(frogs[..i], px, py)
    {
      assert frogs[..i + 1][..i] == frogs[..i];
      if PointerDist2(frogs[i], px, py) < (HitRadius * HitRadius) as real {
        clicked := Some(i);
      }
    }
    assert frogs[..|frogs|] == frogs;
  }
}
