/**
 * The round state machine of the game page: the countdown, the attempt
 * budget, the outcome and the advisory message, driven by discrete events
 * (a timer tick, a click, a pointer move, the delayed timers `endGame`
 * schedules). Timers are not real time here: each timeout firing is an
 * event method.
 *
 * The transitions are first defined on a `RoundState` value, where the
 * round's promises are proved; the class `Round` holds the same state in
 * fields, as the page's `useState` hooks do, and each event method is
 * proved to move its fields exactly as the matching transition does.
 */
module Game {
  import opened Wrappers
  import opened Board
  import opened Layout
  import opened Pointer
  import opened Sound

  /** Initial countdown value: 20000 ticks of 1000 ms each. */
  const InitialTime: nat := 20000
  /** Initial attempt budget. */
  const InitialAttempts: int := 3

  /** Which of `onWin` / `onLose` the end-of-round timer will call. */
  datatype Outcome = Undecided | Won | Lost

  /** The advisory message line. */
  datatype Message =
    | NoMessage                                // ""
    | WinMessage                               // the "you found the target frog" line
    | LoseMessage                              // the "game over" line
    | WrongFrog(target: string, remaining: int) // "this is not <target>, <remaining> chances left"

  /** The round's state; `revealed` is `showFrogPositions`. */
  datatype RoundState = RoundState(
    timeLeft: nat, attempts: int, gameOver: bool, message: Message, outcome: Outcome, revealed: bool)

  /** The state when the page mounts. */
  const Initial: RoundState := RoundState(InitialTime, InitialAttempts, false, NoMessage, Undecided, false)

  /**
   * What holds between events: the attempt budget never goes negative,
   * a round that is still on has attempts and time left, the outcome is
   * decided exactly when the game is over, and a loss means a budget ran
   * out while a win means neither had.
   */
  ghost predicate Inv(s: RoundState) {
    && 0 <= s.attempts <= InitialAttempts
    && s.timeLeft <= InitialTime
    && (s.gameOver <==> s.outcome != Undecided)
    && (!s.gameOver ==> s.attempts > 0 && s.timeLeft > 0 && !s.revealed)
    && (s.outcome == Lost ==> s.attempts == 0 || s.timeLeft == 0)
    && (s.outcome == Won ==> s.attempts > 0 && s.timeLeft > 0)
  }

  /** A click is acted on only while the game is on and attempts remain. */
  predicate Live(s: RoundState) {
    !s.gameOver && s.attempts > 0
  }

  /**
   * The states `endGame(win)` is called from: a round still on, whose
   * budgets are within bounds, and, for a loss, a budget that has just run
   * out, for a win, both budgets left.
   */
  predicate Ending(s: RoundState, win: bool) {
    && !s.gameOver && s.outcome == Undecided && !s.revealed
    && 0 <= s.attempts <= InitialAttempts && s.timeLeft <= InitialTime
    && (win ==> s.attempts > 0 && s.timeLeft > 0)
    && (!win ==> s.attempts <= 0 || s.timeLeft == 0)
  }

  /** `endGame(win)`: the game is over and the outcome and message are set. */
  function EndGame(s: RoundState, win: bool): (r: RoundState)
    ensures r.gameOver && r.outcome == (if win then Won else Lost)
    ensures r.message == (if win then WinMessage else LoseMessage)
    ensures r.timeLeft == s.timeLeft && r.attempts == s.attempts && r.revealed == s.revealed
    ensures Ending(s, win) ==> Inv(r)
  {
    s.(gameOver := true, message := if win then WinMessage else LoseMessage,
       outcome := if win then Won else Lost)
  }

  /** The timer effect's second branch: at zero with the game on, end it as a loss. */
  function TimerEffect(s: RoundState): (r: RoundState)
    ensures s.timeLeft == 0 && !s.gameOver ==> r.gameOver && r.outcome == Lost
    ensures !(s.timeLeft == 0 && !s.gameOver) ==> r == s
  {
    if s.timeLeft == 0 && !s.gameOver then EndGame(s, false) else s
  }

  /**
   * One timer tick: the 1000 ms timeout, scheduled only while time is left
   * and the game is on, lowers the countdown by one; the effect then runs
   * again on the new value.
   */
  function TickStep(s: RoundState): (r: RoundState)
    ensures s.gameOver ==> r == s
    ensures s.timeLeft > 0 && !s.gameOver ==> r.timeLeft == s.timeLeft - 1
    ensures r.timeLeft <= s.timeLeft && r.attempts == s.attempts
    ensures s.timeLeft == 1 && !s.gameOver ==> r.gameOver && r.outcome == Lost
    ensures s.timeLeft > 1 && !s.gameOver ==> !r.gameOver
    ensures Inv(s) ==> Inv(r)
  {
    if s.timeLeft > 0 && !s.gameOver then TimerEffect(s.(timeLeft := s.timeLeft - 1)) else s
  }

  /**
   * `handleClick` once the clicked frog (if any) is known: ignored after
   * game over, without attempts or without a frog; the target species
   * wins; any other frog costs one attempt and loses at zero.
   */
  function ClickStep(s: RoundState, hit: Option<Frog>, targetName: string): (r: RoundState)
    ensures !Live(s) || hit.None? ==> r == s
    ensures r.timeLeft == s.timeLeft && r.revealed == s.revealed
    ensures Live(s) && hit.Some? && hit.value.kind == targetName ==>
      r.gameOver && r.outcome == Won && r.attempts == s.attempts
    ensures Live(s) && hit.Some? && hit.value.kind != targetName ==>
      && r.attempts == s.attempts - 1
      && (r.gameOver <==> r.attempts <= 0)
      && (r.gameOver ==> r.outcome == Lost)
      && (!r.gameOver ==> r.message == WrongFrog(targetName, r.attempts))
    ensures s.attempts >= 0 ==> r.attempts >= 0
    ensures Inv(s) ==> Inv(r)
  {
    if !Live(s) then s
    else
      match hit
      case None => s
      case Some(f) =>
        if f.kind == targetName then EndGame(s, true)
        else
          var remaining := s.attempts - 1;
          if remaining <= 0 then EndGame(s.(attempts := remaining), false)
          else s.(attempts := remaining, message := WrongFrog(targetName, remaining))
  }

  /** The frog a click at the pointer lands on. */
  function HitFrog(frogs: seq<Frog>, px: real, py: real): (hit: Option<Frog>)
    ensures hit.Some? <==> exists i :: 0 <= i < |frogs| && Within(frogs[i], px, py, HitRadius)
    ensures hit.Some? ==> hit.value == frogs[Hit(frogs, px, py).value]
  {
    match Hit(frogs, px, py)
    case None => None
    case Some(i) => Some(frogs[i])
  }

  /**
   * On a laid-out board, a click on a round still on wins it exactly when
   * it resolves to the last frog, the one of the target species.
   */
  lemma ClickWinsOnTargetOnly(s: RoundState, frogs: seq<Frog>, targetName: string, px: real, py: real)
    requires Inv(s) && Live(s) && WellFormed(frogs, targetName)
    ensures ClickStep(s, HitFrog(frogs, px, py), targetName).outcome == Won <==>
      Hit(frogs, px, py) == Some(|frogs| - 1)
  {
  }

  /** `n` timer ticks with no other event. */
  function Ticks(s: RoundState, n: nat): RoundState
    decreases n
  {
    if n == 0 then s else Ticks(TickStep(s), n - 1)
  }

  /** `n` clicks on the same frog. */
  function Clicks(s: RoundState, hit: Option<Frog>, targetName: string, n: nat): RoundState
    decreases n
  {
    if n == 0 then s else Clicks(ClickStep(s, hit, targetName), hit, targetName, n - 1)
  }

  /** Left alone, a round on is still on, with the countdown lowered, before time runs out. */
  lemma {:induction false} TicksCountDown(s: RoundState, n: nat)
    requires Inv(s) && !s.gameOver && n < s.timeLeft
    ensures Inv(Ticks(s, n)) && !Ticks(s, n).gameOver
    ensures Ticks(s, n).timeLeft == s.timeLeft - n && Ticks(s, n).attempts == s.attempts
    decreases n
  {
    if n > 0 {
      TicksCountDown(TickStep(s), n - 1);
    }
  }

  /** Left alone, a round on ends as a loss exactly when the countdown reaches zero. */
  lemma {:induction false} TimeRunsOut(s: RoundState)
    requires Inv(s) && !s.gameOver
    ensures Ticks(s, s.timeLeft).gameOver && Ticks(s, s.timeLeft).outcome == Lost
    ensures Ticks(s, s.timeLeft).timeLeft == 0
  {
    var n := s.timeLeft - 1;
    TicksCountDown(s, n);
    TicksSplit(s, n, 1);
  }

  lemma {:induction false} TicksSplit(s: RoundState, m: nat, n: nat)
    ensures Ticks(s, m + n) == Ticks(Ticks(s, m), n)
    decreases m
  {
    if m > 0 {
      TicksSplit(TickStep(s), m - 1, n);
    }
  }

  /** Once the game is over, ticks change nothing: the countdown is frozen. */
  lemma {:induction false} TicksFrozen(s: RoundState, n: nat)
    requires s.gameOver
    ensures Ticks(s, n) == s
    decreases n
  {
    if n > 0 {
      TicksFrozen(TickStep(s), n - 1);
    }
  }

  /**
   * Clicks on a wrong frog take one attempt each; the round stays on
   * until the last attempt is spent, and that click loses it.
   */
  lemma {:induction false} WrongClicksLose(s: RoundState, f: Frog, targetName: string, n: nat)
    requires Inv(s) && !s.gameOver && f.kind != targetName && 0 < n <= s.attempts
    ensures Clicks(s, Some(f), targetName, n).attempts == s.attempts - n
    ensures Clicks(s, Some(f), targetName, n).gameOver <==> n == s.attempts
    ensures n == s.attempts ==> Clicks(s, Some(f), targetName, n).outcome == Lost
    ensures Clicks(s, Some(f), targetName, n).timeLeft == s.timeLeft
    decreases n
  {
    if n > 1 {
      WrongClicksLose(ClickStep(s, Some(f), targetName), f, targetName, n - 1);
    }
  }

  /** An event that changes the round: a timer tick, or a click resolved to a frog or to none. */
  datatype Event = TickEvent | ClickEvent(hit: Option<Frog>)

  /** One event applied to the round. */
  function Step(s: RoundState, e: Event, targetName: string): (r: RoundState)
    ensures Inv(s) ==> Inv(r)
    ensures s.gameOver ==> r == s
  {
    match e
    case TickEvent => TickStep(s)
    case ClickEvent(hit) => ClickStep(s, hit, targetName)
  }

  /** A sequence of events applied in order. */
  function Run(s: RoundState, es: seq<Event>, targetName: string): RoundState
    decreases |es|
  {
    if es == [] then s else Run(Step(s, es[0], targetName), es[1..], targetName)
  }

  /** Number of timer ticks among the events. */
  function TickCount(es: seq<Event>): (n: nat)
    ensures n <= |es|
  {
    if es == [] then 0 else (if es[0].TickEvent? then 1 else 0) + TickCount(es[1..])
  }

  /** Once the game is over, no event changes the round. */
  lemma {:induction false} RunFrozen(s: RoundState, es: seq<Event>, targetName: string)
    requires s.gameOver
    ensures Run(s, es, targetName) == s
    decreases |es|
  {
    if es != [] {
      RunFrozen(Step(s, es[0], targetName), es[1..], targetName);
    }
  }

  /**
   * Whatever the player does, a round is over once as many ticks as its
   * countdown has fired: clicks never add time, and each tick of a round
   * still on takes one away.
   */
  lemma {:induction false} EndsWithinCountdown(s: RoundState, es: seq<Event>, targetName: string)
    requires Inv(s) && TickCount(es) >= s.timeLeft
    ensures Run(s, es, targetName).gameOver
    ensures Inv(Run(s, es, targetName))
    decreases |es|
  {
    if es == [] {
    } else if s.gameOver {
      RunFrozen(s, es, targetName);
    } else {
      var next := Step(s, es[0], targetName);
      assert next.timeLeft + (if es[0].TickEvent? then 1 else 0) == s.timeLeft;
      EndsWithinCountdown(next, es[1..], targetName);
    }
  }

  /**
   * The page's round: the frog layout made when it mounts, and the state
   * its hooks hold. `playingSound` is the sound the page believes is
   * playing (set when `play()` resolves, cleared on stop).
   */
  class Round {
    const frogs: seq<Frog>
    const targetName: string
    var timeLeft: nat
    var attempts: int
    var gameOver: bool
    var message: Message
    var outcome: Outcome
    var showFrogPositions: bool
    var playingSound: Option<string>

    /** The round's state as a value. */
    function State(): RoundState
      reads this
    {
      RoundState(timeLeft, attempts, gameOver, message, outcome, showFrogPositions)
    }

    ghost predicate Valid()
      reads this
    {
      Inv(State()) && WellFormed(frogs, targetName)
    }

    /** Mounting the page: lay out the frogs, then the initial state. */
    constructor (rnd: nat -> real, targetName: string, targetSound: string)
      requires ValidSource(rnd)
      ensures Valid() && State() == Initial && playingSound == None
      ensures this.targetName == targetName && frogs[|frogs| - 1].sound == targetSound
    {
      var layout := Deal(rnd, targetName, targetSound);
      frogs := layout;
      this.targetName := targetName;
      timeLeft, attempts, gameOver := InitialTime, InitialAttempts, false;
      message, outcome, showFrogPositions := NoMessage, Undecided, false;
      playingSound := None;
    }

    /** `endGame(win)`; its two timeouts are `Reveal` and `Leave`. */
    method EndRound(win: bool)
      requires Ending(State(), win) && WellFormed(frogs, targetName)
      modifies this
      ensures Valid()
      ensures State() == EndGame(old(State()), win)
      ensures playingSound == old(playingSound)
    {
      gameOver := true;
      if win {
        message := WinMessage;
      } else {
        message := LoseMessage;
      }
      outcome := if win then Won else Lost;
    }

    /** The 1000 ms countdown timeout firing, and the effect's re-run. */
    method Tick()
      requires Valid()
      modifies this
      ensures Valid()
      ensures State() == TickStep(old(State()))
      ensures playingSound == old(playingSound)
    {
      if timeLeft > 0 && !gameOver {
        timeLeft := timeLeft - 1;
        if timeLeft == 0 && !gameOver {
          EndRound(false);
        }
      }
    }

    /** `handleClick` at board position (px, py). */
    method Click(px: real, py: real)
      requires Valid()
      modifies this
      ensures Valid()
      ensures State() == ClickStep(old(State()), HitFrog(frogs, px, py), targetName)
      ensures playingSound == old(playingSound)
    {
      if gameOver || attempts <= 0 {
        return;
      }
      var clicked := Pointer.ClickedFrog(frogs, px, py);
      if clicked.Some? {
        var frog := frogs[clicked.value];
        if frog.kind == targetName {
          EndRound(true);
        } else {
          var newAttempts := attempts - 1;
          attempts := newAttempts;
          if newAttempts <= 0 {
            EndRound(false);
          } else {
            message := WrongFrog(targetName, newAttempts);
          }
        }
      }
    }

    /**
     * `checkFrogProximity` at board position (px, py), reading the current
     * state. `curve` is the power curve as a function of squared distance;
     * `playResolves` says whether the `play()` promise resolves.
     */
    method Move(px: real, py: real, curve: real -> real, playResolves: bool) returns (action: SoundAction)
      requires Valid()
      modifies this`playingSound
      ensures Valid()
      ensures action == ProximityAction(frogs, px, py, gameOver, old(playingSound), curve)
      ensures playingSound ==
        if action.Play? && playResolves then Some(action.sound)
        else if action.Stop? then None
        else old(playingSound)
    {
      if gameOver {
        return Silent;
      }
      var nearest, minDistance2 := NearestFrog(frogs, px, py);
      if nearest.Some? && minDistance2 < Audible2 {
        var frog := frogs[nearest.value];
        var volume := Volume(curve(minDistance2));
        if playingSound != Some(frog.sound) {
          action := Play(frog.sound, volume);
          if playResolves {
            playingSound := Some(frog.sound);
          }
        } else {
          action := SetVolume(volume);
        }
      } else if playingSound.Some? {
        action := Stop;
        playingSound := None;
      } else {
        action := Silent;
      }
    }

    /** The 2000 ms timeout after a wrong click: the message line is emptied. */
    method ClearMessage()
      requires Valid()
      modifies this`message
      ensures Valid()
      ensures State() == old(State()).(message := NoMessage)
    {
      message := NoMessage;
    }

    /** The 1500 ms timeout `endGame` schedules: every frog is shown. */
    method Reveal()
      requires Valid() && gameOver
      modifies this`showFrogPositions
      ensures Valid()
      ensures State() == old(State()).(revealed := true)
    {
      showFrogPositions := true;
    }

    /** The 10000 ms timeout `endGame` schedules: `onWin` or `onLose` is called. */
    method Leave() returns (won: bool)
      requires Valid() && gameOver
      ensures won <==> outcome == Won
      ensures !won ==> outcome == Lost
    {
      won := outcome == Won;
    }
  }
}
