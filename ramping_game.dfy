/**
 * The networked game script: the fall speed ramps with the score, the high
 * score is fetched from the server at start-up and a new record is posted back.
 * The module-level variables of the script are the fields of Game.
 */
module RampingGame {
  import opened Simulation

  /** How the start-up fetch of the server's high score completed. */
  datatype FetchResult =
    | Failed                            // network error or a non-success status
    | Received(highScore: Option<int>)  // the response body's highScore, if present

  class Game {
    var basketX: int
    var fallingObjects: seq<Obj>
    var score: int
    var lives: int
    var highScore: int
    var isGameOver: bool
    var fallingSpeed: real
    /** Every value handed to updateHighScore, that is, POSTed to the server. */
    ghost var submitted: seq<int>
    /** Speed steps earned in sessions before the last reset (which keeps the speed). */
    ghost var carriedSteps: nat

    ghost function State(): World
      reads this
    {
      World(basketX, fallingObjects, score, lives, highScore, isGameOver, fallingSpeed, submitted)
    }

    ghost predicate Valid()
      reads this
    {
      Inv(Ramping, State()) &&
      fallingSpeed == RAMPING_BASE_SPEED + RAMP_INCREMENT * (carriedSteps + score / RAMP_EVERY) as real
    }

    /** The script's start: the initial variables, speed 1, high score 0 until the fetch completes. */
    constructor ()
      ensures Valid()
      ensures State() == Initial(0, RAMPING_BASE_SPEED, []) && carriedSteps == 0
    {
      basketX := BASKET_START_X;
      fallingObjects := [];
      score := 0;
      lives := START_LIVES;
      highScore := 0;
      isGameOver := false;
      fallingSpeed := RAMPING_BASE_SPEED;
      submitted := [];
      carriedSteps := 0;
    }

    /** The state effect of fetchHighScores once its request completes: a missing value reads as 0. */
    method FetchCompleted(result: FetchResult)
      requires Valid()
      modifies this`highScore
      ensures Valid()
      ensures highScore == (match result
                            case Failed => old(highScore)
                            case Received(None) => 0
                            case Received(Some(v)) => v)
    {
      match result
      case Failed =>
      case Received(value) =>
        highScore := match value case None => 0 case Some(v) => v;
    }

    /**
     * updateGameState. `spawnRoll` and `xRoll` are the two Math.random() draws:
     * an object spawns when spawnRoll < 0.02, at x = xRoll * 580.
     */
    method Tick(left: bool, right: bool, spawnRoll: real, xRoll: real)
      requires Valid()
      requires 0.0 <= spawnRoll < 1.0 && 0.0 <= xRoll < 1.0
      modifies this
      ensures Valid() && carriedSteps == old(carriedSteps)
      ensures State() == TickSpec(Ramping, old(State()), left, right, spawnRoll, xRoll)
      ensures old(isGameOver) ==> State() == old(State())
      ensures score >= old(score) && lives <= old(lives)
      ensures fallingSpeed >= old(fallingSpeed) && highScore >= old(highScore)
      ensures highScore != old(highScore) ==>
        !old(isGameOver) && isGameOver && highScore <= score && submitted == old(submitted) + [highScore]
      ensures highScore == old(highScore) ==> submitted == old(submitted)
      ensures !old(isGameOver) && isGameOver ==>
        var ending := ScoreAtGameOver(Ramping, old(State()).(basketX := MoveBasket(old(basketX), left, right)), 0);
        old(score) <= ending <= score && highScore == Max(old(highScore), ending)
    {
      ghost var start := State();
      if isGameOver {
        return;
      }
      Advance(left, right, spawnRoll, xRoll);
      TickKeepsInv(Ramping, start, left, right, spawnRoll, xRoll);
      TickAccounting(Ramping, start, left, right, spawnRoll, xRoll);
      TickHighScoreAtGameOver(Ramping, start, left, right, spawnRoll, xRoll);
      TickSpeedFollowsScore(start, left, right, spawnRoll, xRoll, carriedSteps);
    }

    /** updateGameState past its game-over guard: move the basket, run the loop, maybe spawn. */
    method Advance(left: bool, right: bool, spawnRoll: real, xRoll: real)
      requires !isGameOver
      modifies this
      ensures State() == TickSpec(Ramping, old(State()), left, right, spawnRoll, xRoll)
      ensures carriedSteps == old(carriedSteps)
    {
      if left && basketX > 0 {
        basketX := basketX - BASKET_STEP;
      }
      if right && basketX + BASKET_WIDTH < CANVAS_WIDTH {
        basketX := basketX + BASKET_STEP;
      }
      ghost var moved := State();
      assert moved == old(State()).(basketX := MoveBasket(old(basketX), left, right));
      SweepObjects();
      assert State() == Sweep(Ramping, moved, 0);
      if spawnRoll < SPAWN_CHANCE {
        fallingObjects := fallingObjects + [Spawned(xRoll)];
      }
      assert State() == TickSpec(Ramping, old(State()), left, right, spawnRoll, xRoll);
    }

    /** The loop of updateGameState over the falling objects; the index moves on after a splice too. */
    method SweepObjects()
      modifies this
      ensures State() == Sweep(Ramping, old(State()), 0)
      ensures carriedSteps == old(carriedSteps)
    {
      var i := 0;
      while i < |fallingObjects|
        invariant Sweep(Ramping, State(), i) == Sweep(Ramping, old(State()), 0)
        invariant carriedSteps == old(carriedSteps)
        decreases |fallingObjects| - i
      {
        VisitSlot(i);
        i := i + 1;
      }
    }

    /** One pass of the loop body of updateGameState, on slot i. */
    method VisitSlot(i: nat)
      requires i < |fallingObjects|
      modifies this
      ensures State() == Visit(Ramping, old(State()), i)
      ensures carriedSteps == old(carriedSteps)
    {
      fallingObjects := fallingObjects[i := fallingObjects[i].(y := fallingObjects[i].y + fallingSpeed)];
      assert State() == old(State()).(objects := old(State()).objects[i := Advanced(old(State()), i)]);
      CatchSlot(i);
      GroundSlot(i);
    }

    /** The collision branch of the loop body. */
    method CatchSlot(i: nat)
      requires i < |fallingObjects|
      modifies this
      ensures State() == CatchCheck(Ramping, old(State()), i)
      ensures carriedSteps == old(carriedSteps)
    {
      if Caught(fallingObjects[i], basketX) {
        fallingObjects := RemoveAt(fallingObjects, i);
        score := score + 1;
        if score % RAMP_EVERY == 0 {
          fallingSpeed := fallingSpeed + RAMP_INCREMENT;
        }
      }
    }

    /** The ground branch of the loop body, on whatever object now sits in slot i. */
    method GroundSlot(i: nat)
      modifies this
      ensures State() == GroundCheck(old(State()), i)
      ensures carriedSteps == old(carriedSteps)
    {
      if i < |fallingObjects| && Landed(fallingObjects[i]) {
        fallingObjects := RemoveAt(fallingObjects, i);
        lives := lives - 1;
        if lives == 0 {
          isGameOver := true;
          if score > highScore {
            highScore := score;
            submitted := submitted + [highScore];
          }
        }
      }
    }

    /**
     * resetGame: a fresh session. The high score is kept, and so is the fall
     * speed, which resetGame does not touch. (resetGame then runs the game loop
     * again; that is the next Tick.)
     */
    method Reset()
      requires Valid()
      modifies this
      ensures Valid()
      ensures State() == Restarted(old(State()))
      ensures basketX == BASKET_START_X && fallingObjects == [] && score == 0
      ensures lives == START_LIVES && !isGameOver
      ensures highScore == old(highScore) && fallingSpeed == old(fallingSpeed) && submitted == old(submitted)
    {
      carriedSteps := carriedSteps + score / RAMP_EVERY;
      basketX := BASKET_START_X;
      fallingObjects := [];
      score := 0;
      lives := START_LIVES;
      isGameOver := false;
    }

    /** The 'r' key handler: a reset, only once the game is over. */
    method RestartKey()
      requires Valid()
      modifies this
      ensures Valid()
      ensures State() == if old(isGameOver) then Restarted(old(State())) else old(State())
    {
      if isGameOver {
        Reset();
      }
    }
  }
}
