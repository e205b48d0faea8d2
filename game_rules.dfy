/**
 * The two decisions of the game coordinator (server/game.js): which scene
 * changes a player may make, and what one tick of the 1-second room timer
 * does.
 */
module GameRules {

  const Main: string := "main"
  const Finale: string := "finale"

  predicate IsEnigmaScene(s: string) {
    s == "enigma1" || s == "enigma2" || s == "enigma3" || s == "enigma4"
  }

  /** The scenes the game knows. */
  predicate IsScene(s: string) {
    s == Main || s == Finale || IsEnigmaScene(s)
  }

  // -------------------------------------------------------- scene guard

  datatype SceneDecision =
    | Unchanged   // target is the current scene: silent return
    | Rejected    // `error:invalid-scene-change`, nothing written
    | Accepted    // `currentScene` is written

  /** The `game:change-scene` guard. */
  function DecideSceneChange(current: string, target: string): (d: SceneDecision)
    ensures d.Unchanged? <==> target == current
  {
    if target == current then Unchanged
    else if target == Main || target == Finale then Accepted
    else if IsEnigmaScene(target) then (if current == Main then Accepted else Rejected)
    else Rejected
  }

  /**
   * A change is accepted exactly when it moves somewhere else and either
   * goes to `main` or `finale`, or goes from `main` into an enigma.
   */
  lemma AcceptedIff(current: string, target: string)
    ensures DecideSceneChange(current, target).Accepted? <==>
              target != current && (target == Main || target == Finale || (current == Main && IsEnigmaScene(target)))
  {
  }

  /** From `main` to `enigma2` is accepted; from `enigma2` to `enigma3` is rejected; back to `main` is accepted. */
  lemma GuardScenarios()
    ensures DecideSceneChange("main", "enigma2").Accepted?
    ensures DecideSceneChange("enigma2", "enigma3").Rejected?
    ensures DecideSceneChange("enigma2", "main").Accepted?
    ensures DecideSceneChange("enigma4", "finale").Accepted?
    ensures DecideSceneChange("main", "lobby").Rejected?
  {
  }

  /** The scene a player ends in after requesting `targets` in order. */
  function Walk(current: string, targets: seq<string>): string
    decreases |targets|
  {
    if |targets| == 0 then current
    else
      var next := if DecideSceneChange(current, targets[0]).Accepted? then targets[0] else current;
      Walk(next, targets[1..])
  }

  /** Whatever a client requests, a player who starts in a known scene stays in known scenes. */
  lemma {:induction false} WalkStaysInScenes(current: string, targets: seq<string>)
    requires IsScene(current)
    ensures IsScene(Walk(current, targets))
    decreases |targets|
  {
    if |targets| > 0 {
      var next := if DecideSceneChange(current, targets[0]).Accepted? then targets[0] else current;
      assert IsScene(next);
      WalkStaysInScenes(next, targets[1..]);
    }
  }

  /** No sequence of requests leads from one enigma to a different one without passing by `main`. */
  lemma EnigmaToEnigmaNeedsMain(current: string, target: string)
    requires IsEnigmaScene(current) && IsEnigmaScene(target) && current != target
    ensures DecideSceneChange(current, target).Rejected?
  {
  }

  // ------------------------------------------------------------- tick

  /** What one run of `update` leaves behind. */
  datatype TickResult = TickResult(timer: int, timerStopped: bool, gameOver: bool, reschedule: bool)

  /**
   * One tick of `update`: a win stops the clock, otherwise a running clock
   * above zero loses one second, and a running clock at zero stops with
   * a `game:over` (reason `timeout`). The loop is scheduled again while
   * the clock runs or time is left.
   */
  function Tick(timer: int, timerStopped: bool, allCompleted: bool): (r: TickResult)
    ensures r.reschedule <==> !r.timerStopped || r.timer > 0
  {
    var (t, stopped, over) :=
      if allCompleted && !timerStopped then (timer, true, false)
      else if !timerStopped && timer > 0 then (timer - 1, false, false)
      else if !timerStopped && timer == 0 then (timer, true, true)
      else (timer, timerStopped, false);
    TickResult(t, stopped, over, !stopped || t > 0)
  }

  /** Win: all gating enigmas completed and the clock running stops it with the time left unchanged. */
  lemma TickWin(timer: int)
    ensures Tick(timer, false, true) == TickResult(timer, true, false, timer > 0)
  {
  }

  /** Otherwise a running clock above zero loses exactly one second. */
  lemma TickDecrements(timer: int, allCompleted: bool)
    requires !allCompleted && timer > 0
    ensures Tick(timer, false, allCompleted).timer == timer - 1
    ensures !Tick(timer, false, allCompleted).timerStopped && !Tick(timer, false, allCompleted).gameOver
  {
  }

  /** A running clock at zero stops with a game over; the loop ends there. */
  lemma TickTimeout(allCompleted: bool)
    requires !allCompleted
    ensures Tick(0, false, allCompleted) == TickResult(0, true, true, false)
  {
  }

  /** Once stopped, no tick changes the clock, and a win that left time keeps the loop running. */
  lemma TickStoppedFrozen(timer: int, allCompleted: bool)
    ensures var r := Tick(timer, true, allCompleted);
            r.timer == timer && r.timerStopped && !r.gameOver && (r.reschedule <==> timer > 0)
  {
  }

  /** A game over is announced only by the tick that stops a running clock at zero. */
  lemma GameOverOnlyOnTimeout(timer: int, timerStopped: bool, allCompleted: bool)
    ensures Tick(timer, timerStopped, allCompleted).gameOver <==> !timerStopped && !allCompleted && timer == 0
  {
  }

  /** The room after `n` ticks, given whether the gating enigmas were all completed at each tick. */
  function Run(timer: int, timerStopped: bool, completed: seq<bool>): (r: (int, bool))
    ensures r.0 <= timer
    ensures timerStopped ==> r.1
    decreases |completed|
  {
    if |completed| == 0 then (timer, timerStopped)
    else
      var step := Tick(timer, timerStopped, completed[0]);
      Run(step.timer, step.timerStopped, completed[1..])
  }

  /** Over any number of ticks the clock never goes up and never goes below zero. */
  lemma {:induction false} RunBounds(timer: int, timerStopped: bool, completed: seq<bool>)
    requires timer >= 0
    ensures 0 <= Run(timer, timerStopped, completed).0 <= timer
    decreases |completed|
  {
    if |completed| > 0 {
      var step := Tick(timer, timerStopped, completed[0]);
      RunBounds(step.timer, step.timerStopped, completed[1..]);
    }
  }

  /** Once the clock is stopped it stays stopped and keeps its value. */
  lemma {:induction false} RunAfterStop(timer: int, completed: seq<bool>)
    ensures Run(timer, true, completed) == (timer, true)
  {
    if |completed| > 0 {
      RunAfterStop(timer, completed[1..]);
    }
  }

  /** Once every gating enigma is completed, the clock never changes again. */
  lemma {:induction false} RunAfterWin(timer: int, timerStopped: bool, completed: seq<bool>)
    requires forall i :: 0 <= i < |completed| ==> completed[i]
    ensures Run(timer, timerStopped, completed).0 == timer
  {
    if |completed| > 0 {
      var step := Tick(timer, timerStopped, completed[0]);
      assert step.timer == timer && step.timerStopped;
      RunAfterStop(timer, completed[1..]);
    }
  }

  /** With the clock running and no win, `n` ticks with `n <= timer` remove exactly `n` seconds. */
  lemma {:induction false} RunCountsDown(timer: int, completed: seq<bool>)
    requires |completed| <= timer
    requires forall i :: 0 <= i < |completed| ==> !completed[i]
    ensures Run(timer, false, completed) == (timer - |completed|, false)
  {
    if |completed| > 0 {
      RunCountsDown(timer - 1, completed[1..]);
    }
  }
}
