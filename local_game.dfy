/**
 * The self-contained game script: objects fall at a constant 2 units per tick
 * and the high score lives in the browser's local storage. The module-level
 * variables of the script are the fields of Game; the speed is a constant.
 */
module LocalGame {
  import opened Simulation

  class Game {
    var basketX: int
    var fallingObjects: seq<Obj>
    var score: int
    var lives: int
    var highScore: int
    var isGameOver: bool
    /** Every value written to localStorage under "highScore". */
    ghost var persisted: seq<int>

    ghost function State(): World
      reads this
    {
      World(basketX, fallingObjects, score, lives, highScore, isGameOver, FIXED_SPEED, persisted)
    }

    ghost predicate Valid()
      reads this
    {
      Inv(Fixed, State())
    }

    /** The script's start; `stored` is the value local storage held, if any (absent reads as 0). */
    constructor (stored: Option<int>)
      ensures Valid()
      ensures State() == Initial(match stored case None => 0 case Some(v) => v, FIXED_SPEED, [])
    {
      basketX := BASKET_START_X;
      fallingObjects := [];
      score := 0;
      lives := START_LIVES;
      highScore := match stored case None => 0 case Some(v) => v;
      isGameOver := false;
      persisted := [];
    }

    /**
     * updateGameState. `spawnRoll` and `xRoll` are the two Math.random() draws:
     * an object spawns when spawnRoll < 0.02, at x = xRoll * 580.
     */
    method Tick(left: bool, right: bool, spawnRoll: real, xRoll: real)
      requires Valid()
      requires 0.0 <= spawnRoll < 1.0 && 0.0 <= xRoll < 1.0
      modifies this
      ensures Valid()
      ensures State() == TickSpec(Fixed, old(State()), left, right, spawnRoll, xRoll)
      ensures old(isGameOver) ==> State() == old(State())
      ensures score >= old(score) && lives <= old(lives)
      ensures highScore >= old(highScore)
      ensures highScore != old(highScore) ==>
        !old(isGameOver) && isGameOver && highScore <= score && persisted == old(persisted) + [highScore]
      ensures highScore == old(highScore) ==> persisted == old(persisted)
      ensures !old(isGameOver) && isGameOver ==>
        var ending := ScoreAtGameOver(Fixed, old(State()).(basketX := MoveBasket(old(basketX), left, right)), 0);
        old(score) <= ending <= score && highScore == Max(old(highScore), ending)
    {
      ghost var start := State();
      if isGameOver {
        return;
      }
      Advance(left, right, spawnRoll, xRoll);
      TickKeepsInv(Fixed, start, left, right, spawnRoll, xRoll);
      TickAccounting(Fixed, start, left, right, spawnRoll, xRoll);
      TickHighScoreAtGameOver(Fixed, start, left, right, spawnRoll, xRoll);
    }

    /** updateGameState past its game-over guard: move the basket, run the loop, maybe spawn. */
    method Advance(left: bool, right: bool, spawnRoll: real, xRoll: real)
      requires !isGameOver
      modifies this
      ensures State() == TickSpec(Fixed, old(State()), left, right, spawnRoll, xRoll)
    {
      if left && basketX > 0 {
        basketX := basketX - BASKET_STEP;
      }
      if right && basketX + BASKET_WIDTH < CANVAS_WIDTH {
        basketX := basketX + BASKET_STEP;
      }
      ghost var moved := State();
      assert moved == old(State()).(basketX := MoveBasket(old(basketX), left, right));
      SweepObjects();
      assert State() == Sweep(Fixed, moved, 0);
      if spawnRoll < SPAWN_CHANCE {
        fallingObjects := fallingObjects + [Spawned(xRoll)];
      }
      assert State() == TickSpec(Fixed, old(State()), left, right, spawnRoll, xRoll);
    }

    /** The loop of updateGameState over the falling objects; the index moves on after a splice too. */
    method SweepObjects()
      modifies this
      ensures State() == Sweep(Fixed, old(State()), 0)
    {
      var i := 0;
      while i < |fallingObjects|
        invariant Sweep(Fixed, State(), i) == Sweep(Fixed, old(State()), 0)
        decreases |fallingObjects| - i
      {
        VisitSlot(i);
        i := i + 1;
      }
    }

    /** One pass of the loop body of updateGameState, on slot i. */
    method VisitSlot(i: nat)
      requires i < |fallingObjects|
      modifies this
      ensures State() == Visit(Fixed, old(State()), i)
    {
      fallingObjects := fallingObjects[i := fallingObjects[i].(y := fallingObjects[i].y + FIXED_SPEED)];
      assert State() == old(State()).(objects := old(State()).objects[i := Advanced(old(State()), i)]);
      CatchSlot(i);
      GroundSlot(i);
    }

    /** The collision branch of the loop body; this script has no speed ramp. */
    method CatchSlot(i: nat)
      requires i < |fallingObjects|
      modifies this
      ensures State() == CatchCheck(Fixed, old(State()), i)
    {
      if Caught(fallingObjects[i], basketX) {
        fallingObjects := RemoveAt(fallingObjects, i);
        score := score + 1;
      }
    }

    /** The ground branch of the loop body, on whatever object now sits in slot i. */
    method GroundSlot(i: nat)
      modifies this
      ensures State() == GroundCheck(old(State()), i)
    {
      if i < |fallingObjects| && Landed(fallingObjects[i]) {
        fallingObjects := RemoveAt(fallingObjects, i);
        lives := lives - 1;
        if lives == 0 {
          isGameOver := true;
          if score > highScore {
            highScore := score;
            persisted := persisted + [highScore];
          }
        }
      }
    }

    /**
     * resetGame: a fresh session with the high score kept. (resetGame then
     * runs the game loop again; that is the next Tick.)
     */
    method Reset()
      requires Valid()
      modifies this
      ensures Valid()
      ensures State() == Restarted(old(State()))
      ensures basketX == BASKET_START_X && fallingObjects == [] && score == 0
      ensures lives == START_LIVES && !isGameOver
      ensures highScore == old(highScore) && persisted == old(persisted)
    {
      basketX := BASKET_START_X;
      fallingObjects := [];
      score := 0;
      lives := START_LIVES;
      isGameOver := false;
    }

    /** The 'r' key handler: a reset, only once the game is over. */
    method RestartKey()
      requires Valid()
      modifies this
      ensures Valid()
      ensures State() == if old(isGameOver) then Restarted(old(State())) else old(State())
    {
      if isGameOver {
        Reset();
      }
    }
  }
}
