/**
 * The frog layout generator run once when the game page mounts
 * (the `useState` initialiser of `frogs`).
 *
 * `Math.random` is replaced by an injected stream `rnd`: `rnd(k)` is the
 * k-th value the page draws, each in [0, 1). The generator consumes the
 * stream in the order the page does: one draw for the count, then per
 * non-target frog one draw for its species and two per position attempt.
 */
module Layout {
  import opened Board

  /** Position attempts per frog before the generator gives up on spacing. */
  const MaxAttempts: nat := 20

  /** Every value of the stream is a possible `Math.random()` result. */
  ghost predicate ValidSource(rnd: nat -> real) {
    forall k :: 0.0 <= rnd(k) < 1.0
  }

  /** `Math.floor(r * n)` for a random value r: an index below n. */
  function Scale(r: real, n: nat): (k: nat)
    requires 0.0 <= r < 1.0 && n > 0
    ensures k < n
  {
    var m := n as real;
    assert 0.0 <= r * m < m by {
      assert (1.0 - r) * m > 0.0;
    }
    (r * m).Floor
  }

  /** The x coordinate drawn from sample k: `floor(random * 80) + 10`. */
  function SampleX(rnd: nat -> real, k: nat): (x: int)
    requires ValidSource(rnd)
    ensures 10 <= x <= 89
  {
    Scale(rnd(k), 80) + 10
  }

  /** The y coordinate drawn from sample k + 1: `floor(random * 70) + 15`. */
  function SampleY(rnd: nat -> real, k: nat): (y: int)
    requires ValidSource(rnd)
    ensures 15 <= y <= 84
  {
    Scale(rnd(k + 1), 70) + 15
  }

  /** The roster without the target's species (the page's `filter`). */
  function WithoutKind(types: seq<Species>, kind: string): (r: seq<Species>)
    ensures forall s :: s in r <==> s in types && s.kind != kind
    ensures |r| <= |types|
  {
    if types == [] then []
    else (if types[0].kind != kind then [types[0]] else []) + WithoutKind(types[1..], kind)
  }

  /** The roster names three distinct species, so at most one is filtered out. */
  lemma RosterSurvivesFilter(targetName: string)
    ensures |WithoutKind(FrogTypes, targetName)| >= 2
  {
  }

  /**
   * The species non-target frogs are drawn from: never empty, so drawing
   * an index into it is always defined.
   */
  function NonTargetTypes(targetName: string): (r: seq<Species>)
    ensures |r| >= 2
    ensures forall s :: s in r ==> s in FrogTypes && s.kind != targetName
  {
    RosterSurvivesFilter(targetName);
    WithoutKind(FrogTypes, targetName)
  }

  /** `isTooClose`: some already placed frog is nearer than the minimum distance. */
  predicate TooClose(positions: seq<Frog>, x: int, y: int) {
    exists j :: 0 <= j < |positions| && Dist2(positions[j], x, y) < MinDistance * MinDistance
  }

  /** Attempt t of a placement starting at sample k was rejected for spacing. */
  ghost predicate RejectedAt(positions: seq<Frog>, rnd: nat -> real, k: nat, t: nat)
    requires ValidSource(rnd)
  {
    TooClose(positions, SampleX(rnd, k + 2 * t), SampleY(rnd, k + 2 * t))
  }

  /** The `isTooClose` loop, with its early return. */
  method IsTooClose(positions: seq<Frog>, x: int, y: int) returns (close: bool)
    ensures close <==> TooClose(positions, x, y)
  {
    for j := 0 to |positions|
      invariant forall i :: 0 <= i < j ==> Dist2(positions[i], x, y) >= MinDistance * MinDistance
    {
      if Dist2(positions[j], x, y) < MinDistance * MinDistance {
        return true;
      }
    }
    return false;
  }

  /**
   * The `do … while` placement loop starting at sample k: draw a point
   * until it is not too close or `MaxAttempts` points were drawn; the last
   * point drawn is returned, together with the attempt count and the
   * cursor after the last draw.
   */
  method DrawPosition(positions: seq<Frog>, rnd: nat -> real, k: nat)
    returns (x: int, y: int, attempts: nat, next: nat)
    requires ValidSource(rnd)
    ensures 1 <= attempts <= MaxAttempts && next == k + 2 * attempts
    ensures x == SampleX(rnd, next - 2) && y == SampleY(rnd, next - 2)
    ensures InBoard(x, y)
    ensures attempts < MaxAttempts ==> !TooClose(positions, x, y)
    ensures forall t :: 0 <= t < attempts - 1 ==> RejectedAt(positions, rnd, k, t)
    ensures PlacedAt(positions, x, y, rnd, k, attempts, false)
  {
    x, y := SampleX(rnd, k), SampleY(rnd, k);
    attempts, next := 1, k + 2;
    var close := IsTooClose(positions, x, y);
    while close && attempts < MaxAttempts
      invariant 1 <= attempts <= MaxAttempts && next == k + 2 * attempts
      invariant x == SampleX(rnd, next - 2) && y == SampleY(rnd, next - 2)
      invariant close <==> TooClose(positions, x, y)
      invariant forall t :: 0 <= t < attempts - 1 ==> RejectedAt(positions, rnd, k, t)
      decreases MaxAttempts - attempts
    {
      assert RejectedAt(positions, rnd, k, attempts - 1);
      x, y := SampleX(rnd, next), SampleY(rnd, next);
      attempts, next := attempts + 1, next + 2;
      close := IsTooClose(positions, x, y);
    }
  }

  /** The last frog is the target and no earlier frog has its species name. */
  predicate TargetLast(frogs: seq<Frog>, targetName: string) {
    && |frogs| > 0
    && frogs[|frogs| - 1].kind == targetName
    && forall i :: 0 <= i < |frogs| - 1 ==> frogs[i].kind != targetName
  }

  /** The shape of every layout: ids in order, all on the board, target last. */
  predicate WellFormed(frogs: seq<Frog>, targetName: string) {
    && 6 <= |frogs| <= 8
    && (forall i :: 0 <= i < |frogs| ==> frogs[i].id == i && InBoard(frogs[i].x, frogs[i].y))
    && TargetLast(frogs, targetName)
  }

  /** The sample index just after a placement that began at `start`. */
  function PlacementEnd(start: nat, tries: nat, fallback: bool): nat {
    start + 2 * tries + (if fallback then 2 else 0)
  }

  /**
   * (x, y) is where a placement among `positions` that began at sample
   * `start` and stopped after `tries` attempts puts a frog: every attempt
   * but the last was too close, the last one was not unless the attempts
   * ran out, and the frog takes the last point drawn, or, on `fallback`,
   * one more point drawn without any distance check.
   */
  ghost predicate PlacedAt(positions: seq<Frog>, x: int, y: int, rnd: nat -> real,
                           start: nat, tries: nat, fallback: bool)
    requires ValidSource(rnd)
  {
    && 1 <= tries <= MaxAttempts
    && (forall t :: 0 <= t < tries - 1 ==> RejectedAt(positions, rnd, start, t))
    && (tries < MaxAttempts ==> !RejectedAt(positions, rnd, start, tries - 1))
    && var last := if fallback then start + 2 * tries else start + 2 * (tries - 1);
       x == SampleX(rnd, last) && y == SampleY(rnd, last)
  }

  /** Frog i of a layout is placed among the frogs before it. */
  ghost predicate PlacedFrom(frogs: seq<Frog>, i: nat, rnd: nat -> real, start: nat, tries: nat, fallback: bool)
    requires ValidSource(rnd) && i < |frogs|
  {
    PlacedAt(frogs[..i], frogs[i].x, frogs[i].y, rnd, start, tries, fallback)
  }

  /** The fallback point after `MaxAttempts` rejected or last-kept attempts. */
  lemma FallbackPlaced(positions: seq<Frog>, x: int, y: int, rnd: nat -> real, start: nat)
    requires ValidSource(rnd) && PlacedAt(positions, x, y, rnd, start, MaxAttempts, false)
    ensures PlacedAt(positions, SampleX(rnd, start + 2 * MaxAttempts), SampleY(rnd, start + 2 * MaxAttempts),
                     rnd, start, MaxAttempts, true)
  {
  }

  /** Appending a frog does not move the frogs already placed. */
  lemma PlacedFromAppend(frogs: seq<Frog>, f: Frog, i: nat, rnd: nat -> real, start: nat, tries: nat, fallback: bool)
    requires ValidSource(rnd) && i < |frogs| && PlacedFrom(frogs, i, rnd, start, tries, fallback)
    ensures PlacedFrom(frogs + [f], i, rnd, start, tries, fallback)
  {
    assert (frogs + [f])[..i] == frogs[..i];
  }

  /**
   * Non-target frog j of a layout: its id is its index, it lies on the
   * board, its species comes from the sample just before its placement,
   * and it is placed from `start` with the fallback when attempts ran out.
   */
  ghost predicate NonTargetPlaced(frogs: seq<Frog>, j: nat, rnd: nat -> real, types: seq<Species>,
                                  start: nat, tries: nat)
    requires ValidSource(rnd) && j < |frogs| && |types| > 0
  {
    && frogs[j].id == j && InBoard(frogs[j].x, frogs[j].y)
    && start >= 1
    && Species(frogs[j].kind, frogs[j].sound) == types[Scale(rnd(start - 1), |types|)]
    && PlacedFrom(frogs, j, rnd, start, tries, tries == MaxAttempts)
  }

  lemma NonTargetPlacedAppend(frogs: seq<Frog>, f: Frog, j: nat, rnd: nat -> real, types: seq<Species>,
                              start: nat, tries: nat)
    requires ValidSource(rnd) && j < |frogs| && |types| > 0
    requires NonTargetPlaced(frogs, j, rnd, types, start, tries)
    ensures NonTargetPlaced(frogs + [f], j, rnd, types, start, tries)
  {
    PlacedFromAppend(frogs, f, j, rnd, start, tries, tries == MaxAttempts);
  }

  /**
   * One pass of the layout's `for` loop: draw the species from sample
   * `next`, run the placement loop from `next + 1`, and take the fallback
   * point when the attempts ran out.
   */
  method PlaceNonTarget(frogs: seq<Frog>, rnd: nat -> real, types: seq<Species>, next: nat)
    returns (frog: Frog, ghost start: nat, ghost tries: nat, after: nat)
    requires ValidSource(rnd) && |types| > 0
    ensures start == next + 1 && after == PlacementEnd(start, tries, tries == MaxAttempts)
    ensures NonTargetPlaced(frogs + [frog], |frogs|, rnd, types, start, tries)
    ensures tries < MaxAttempts ==> !TooClose(frogs, frog.x, frog.y)
  {
    var species := types[Scale(rnd(next), |types|)];
    var x, y, attempts;
    x, y, attempts, after := DrawPosition(frogs, rnd, next + 1);
    start, tries := next + 1, attempts;
    if attempts >= MaxAttempts {
      // spacing abandoned: one more point, kept whatever its distance
      FallbackPlaced(frogs, x, y, rnd, start);
      x, y := SampleX(rnd, after), SampleY(rnd, after);
      after := after + 2;
    }
    frog := Frog(|frogs|, x, y, species.kind, species.sound);
    assert (frogs + [frog])[..|frogs|] == frogs;
  }

  /** Every frog placed within its attempts keeps the minimum distance to the frogs before it. */
  ghost predicate Spaced(frogs: seq<Frog>, tries: seq<nat>)
    requires |tries| == |frogs|
  {
    forall i, j :: 0 <= j < i < |frogs| && tries[i] < MaxAttempts ==>
      Dist2(frogs[j], frogs[i].x, frogs[i].y) >= MinDistance * MinDistance
  }

  /** The sample index where the next non-target frog's species is drawn. */
  function NextSample(starts: seq<nat>, tries: seq<nat>): nat
    requires |starts| == |tries|
  {
    if starts == [] then 1
    else PlacementEnd(starts[|starts| - 1], tries[|tries| - 1], tries[|tries| - 1] == MaxAttempts)
  }

  /** Non-target frog j + 1 draws its species right after frog j's placement ended. */
  predicate Chained(starts: seq<nat>, tries: seq<nat>, j: nat)
    requires j + 1 < |starts| && j < |tries|
  {
    starts[j + 1] == PlacementEnd(starts[j], tries[j], tries[j] == MaxAttempts) + 1
  }

  /** What the layout's `for` loop has built after |frogs| passes. */
  ghost predicate NonTargetsPlaced(frogs: seq<Frog>, rnd: nat -> real, types: seq<Species>,
                                   starts: seq<nat>, tries: seq<nat>)
    requires ValidSource(rnd) && |types| > 0
  {
    && |frogs| == |starts| == |tries|
    && (|starts| > 0 ==> starts[0] == 2)
    && (forall j :: 0 <= j < |frogs| - 1 ==> Chained(starts, tries, j))
    && (forall j :: 0 <= j < |frogs| ==> NonTargetPlaced(frogs, j, rnd, types, starts[j], tries[j]))
    && Spaced(frogs, tries)
  }

  /** One more pass of the loop keeps what the loop has built. */
  lemma NonTargetsAppend(frogs: seq<Frog>, rnd: nat -> real, types: seq<Species>,
                         starts: seq<nat>, tries: seq<nat>, frog: Frog, start: nat, t: nat)
    requires ValidSource(rnd) && |types| > 0
    requires NonTargetsPlaced(frogs, rnd, types, starts, tries)
    requires start == NextSample(starts, tries) + 1
    requires NonTargetPlaced(frogs + [frog], |frogs|, rnd, types, start, t)
    requires t < MaxAttempts ==> !TooClose(frogs, frog.x, frog.y)
    ensures NonTargetsPlaced(frogs + [frog], rnd, types, starts + [start], tries + [t])
  {
    forall j | 0 <= j < |frogs|
      ensures Chained(starts + [start], tries + [t], j)
    {
      if j < |frogs| - 1 {
        assert Chained(starts, tries, j);
      }
    }
    forall j | 0 <= j < |frogs|
      ensures NonTargetPlaced(frogs + [frog], j, rnd, types, starts[j], tries[j])
    {
      NonTargetPlacedAppend(frogs, frog, j, rnd, types, starts[j], tries[j]);
    }
  }

  /** Appending the target keeps the spacing promise and places the target after the others. */
  lemma TargetAppend(frogs: seq<Frog>, tries: seq<nat>, rnd: nat -> real, target: Frog, start: nat, t: nat)
    requires ValidSource(rnd) && |tries| == |frogs| && Spaced(frogs, tries)
    requires PlacedAt(frogs, target.x, target.y, rnd, start, t, false)
    requires t < MaxAttempts ==> !TooClose(frogs, target.x, target.y)
    ensures Spaced(frogs + [target], tries + [t])
    ensures PlacedFrom(frogs + [target], |frogs|, rnd, start, t, false)
  {
  }

  /**
   * The layout initialiser. Sample 0 gives the count; each non-target frog
   * then takes one sample for its species and begins placing at the next
   * one (`starts[i]`); the target begins where the last non-target ended,
   * with no fallback. `tries[i]` is the attempt counter when frog i's
   * placement loop exited.
   */
  method GenerateLayout(rnd: nat -> real, targetName: string, targetSound: string)
    returns (frogs: seq<Frog>, ghost starts: seq<nat>, ghost tries: seq<nat>)
    requires ValidSource(rnd)
    ensures |frogs| == Scale(rnd(0), 3) + 5 + 1
    ensures WellFormed(frogs, targetName)
    ensures frogs[|frogs| - 1].sound == targetSound
    ensures |starts| == |tries| == |frogs|
    ensures var count := |frogs| - 1;
      && NonTargetsPlaced(frogs[..count], rnd, NonTargetTypes(targetName), starts[..count], tries[..count])
      && starts[count] == NextSample(starts[..count], tries[..count])
      && PlacedFrom(frogs, count, rnd, starts[count], tries[count], false)
    ensures Spaced(frogs, tries)
  {
    var types := NonTargetTypes(targetName);
    var count := Scale(rnd(0), 3) + 5;
    var next;
    frogs, starts, tries, next := PlaceNonTargets(rnd, types, targetName, count);
    var targetX, targetY, attempts, after := DrawPosition(frogs, rnd, next);
    var target := Frog(count, targetX, targetY, targetName, targetSound);
    TargetAppend(frogs, tries, rnd, target, next, attempts);
    TargetCompletes(frogs, target, targetName);
    assert (frogs + [target])[..count] == frogs;
    assert (starts + [next])[..count] == starts;
    assert (tries + [attempts])[..count] == tries;
    frogs, starts, tries := frogs + [target], starts + [next], tries + [attempts];
  }

  /** The layout's `for` loop: `count` non-target frogs, drawn from sample 1 on. */
  method PlaceNonTargets(rnd: nat -> real, types: seq<Species>, targetName: string, count: nat)
    returns (frogs: seq<Frog>, ghost starts: seq<nat>, ghost tries: seq<nat>, next: nat)
    requires ValidSource(rnd) && |types| > 0
    requires forall s :: s in types ==> s.kind != targetName
    ensures |frogs| == count
    ensures NonTargetsPlaced(frogs, rnd, types, starts, tries)
    ensures next == NextSample(starts, tries)
    ensures NonTargetShape(frogs, targetName)
  {
    next := 1;
    frogs, starts, tries := [], [], [];
    for i := 0 to count
      invariant |frogs| == i
      invariant NonTargetsPlaced(frogs, rnd, types, starts, tries)
      invariant next == NextSample(starts, tries)
    {
      var frog, start, attempts, after := PlaceNonTarget(frogs, rnd, types, next);
      NonTargetsAppend(frogs, rnd, types, starts, tries, frog, start, attempts);
      frogs, starts, tries := frogs + [frog], starts + [start], tries + [attempts];
      next := after;
    }
    NonTargetKinds(frogs, rnd, types, starts, tries, targetName);
  }

  /** Non-target frogs: ids in order, on the board, none of the target's species. */
  predicate NonTargetShape(frogs: seq<Frog>, targetName: string) {
    forall j :: 0 <= j < |frogs| ==>
      frogs[j].id == j && InBoard(frogs[j].x, frogs[j].y) && frogs[j].kind != targetName
  }

  /** Frogs drawn from a roster without the target's species are never of that species. */
  lemma NonTargetKinds(frogs: seq<Frog>, rnd: nat -> real, types: seq<Species>,
                       starts: seq<nat>, tries: seq<nat>, targetName: string)
    requires ValidSource(rnd) && |types| > 0
    requires forall s :: s in types ==> s.kind != targetName
    requires NonTargetsPlaced(frogs, rnd, types, starts, tries)
    ensures NonTargetShape(frogs, targetName)
  {
  }

  /** The target, appended after 5 to 7 non-target frogs, completes a well-formed layout. */
  lemma TargetCompletes(frogs: seq<Frog>, target: Frog, targetName: string)
    requires 5 <= |frogs| <= 7 && NonTargetShape(frogs, targetName)
    requires target.id == |frogs| && InBoard(target.x, target.y) && target.kind == targetName
    ensures WellFormed(frogs + [target], targetName)
  {
  }

  /** Number of frogs of one species name. */
  function CountKind(frogs: seq<Frog>, kind: string): (n: nat)
    ensures n <= |frogs|
  {
    if frogs == [] then 0
    else CountKind(frogs[..|frogs| - 1], kind) + (if frogs[|frogs| - 1].kind == kind then 1 else 0)
  }

  lemma {:induction false} CountKindNone(frogs: seq<Frog>, kind: string)
    requires forall i :: 0 <= i < |frogs| ==> frogs[i].kind != kind
    ensures CountKind(frogs, kind) == 0
  {
    if frogs != [] {
      CountKindNone(frogs[..|frogs| - 1], kind);
    }
  }

  /** Every layout holds exactly one frog of the target species. */
  lemma {:induction false} ExactlyOneTarget(frogs: seq<Frog>, targetName: string)
    requires TargetLast(frogs, targetName)
    ensures CountKind(frogs, targetName) == 1
  {
    CountKindNone(frogs[..|frogs| - 1], targetName);
  }

  /**
   * The layout as the page keeps it in state: `GenerateLayout` with its
   * ghost record of the draws dropped, so callers reason about the frogs
   * alone.
   */
  method Deal(rnd: nat -> real, targetName: string, targetSound: string) returns (frogs: seq<Frog>)
    requires ValidSource(rnd)
    ensures WellFormed(frogs, targetName)
    ensures frogs[|frogs| - 1].sound == targetSound
  {
    ghost var starts, tries;
    frogs, starts, tries := GenerateLayout(rnd, targetName, targetSound);
  }
}
