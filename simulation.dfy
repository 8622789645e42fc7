/**
 * The per-frame update shared by the two game scripts, stated on values.
 *
 * A World is one snapshot of the module-level game variables. Visit is one
 * iteration of the loop over the falling objects, Sweep runs that loop from a
 * given index to its end, and TickSpec is a whole call of updateGameState.
 * The two scripts differ only in their fall-speed policy (Ramping: speed starts
 * at 1 and rises by 0.5 at every tenth catch; Fixed: speed 2) and in where a new
 * high score is written; both writes are logged in World.saved.
 */
module Simulation {

  const CANVAS_WIDTH: int := 600
  const CANVAS_HEIGHT: int := 400
  const BASKET_WIDTH: int := 80
  const BASKET_Y: int := CANVAS_HEIGHT - 30
  const BASKET_START_X: int := CANVAS_WIDTH / 2 - 40
  const BASKET_STEP: int := 5
  const OBJECT_SIZE: int := 20
  const START_LIVES: int := 3
  const SPAWN_CHANCE: real := 0.02
  const RAMP_EVERY: int := 10
  const RAMP_INCREMENT: real := 0.5
  const RAMPING_BASE_SPEED: real := 1.0
  const FIXED_SPEED: real := 2.0

  /** Rightmost basket position that the movement rule can reach from 260. */
  const BASKET_MAX_X: int := CANVAS_WIDTH - BASKET_WIDTH

  datatype Option<T> = None | Some(value: T)

  /** A falling object; its size is always OBJECT_SIZE. */
  datatype Obj = Obj(x: real, y: real)

  /** Fall-speed policy: script1.js ramps, script.js falls at a constant 2. */
  datatype SpeedPolicy = Ramping | Fixed

  /**
   * The game variables. `saved` logs every new high score the game writes
   * out (a POST to the server in script1.js, a localStorage write in script.js).
   */
  datatype World = World(
    basketX: int,
    objects: seq<Obj>,
    score: int,
    lives: int,
    highScore: int,
    gameOver: bool,
    speed: real,
    saved: seq<int>)

  /** The state a page load (or resetGame) starts a session from. */
  function Initial(highScore: int, speed: real, saved: seq<int>): World
  {
    World(BASKET_START_X, [], 0, START_LIVES, highScore, false, speed, saved)
  }

  // ---------------------------------------------------------------------------
  // Basket movement
  // ---------------------------------------------------------------------------

  /** The basket positions the game keeps to: a multiple of 5 inside the canvas. */
  predicate OnTrack(x: int)
  {
    0 <= x <= BASKET_MAX_X && x % BASKET_STEP == 0
  }

  /** Left is applied first, then right, each only if its wall is not reached. */
  function MoveBasket(x: int, left: bool, right: bool): (r: int)
    ensures OnTrack(x) ==> OnTrack(r)
    ensures -BASKET_STEP <= r - x <= BASKET_STEP && (r - x) % BASKET_STEP == 0
    ensures !left && !right ==> r == x
    ensures OnTrack(x) && left && !right ==> r == (if x == 0 then 0 else x - BASKET_STEP)
    ensures OnTrack(x) && right && !left ==> r == (if x == BASKET_MAX_X then x else x + BASKET_STEP)
    ensures OnTrack(x) && left && right ==> r == (if x == 0 then BASKET_STEP else x)
  {
    var afterLeft := if left && x > 0 then x - BASKET_STEP else x;
    if right && afterLeft + BASKET_WIDTH < CANVAS_WIDTH then afterLeft + BASKET_STEP else afterLeft
  }

  // ---------------------------------------------------------------------------
  // Collision and ground tests
  // ---------------------------------------------------------------------------

  /**
   * The catch test: reaches the basket's top edge and overlaps it horizontally.
   * It runs before the ground test, so an object that has already passed the
   * canvas bottom while over the basket still counts as caught.
   */
  predicate Caught(o: Obj, basketX: int)
    ensures Landed(o) && (basketX - OBJECT_SIZE) as real <= o.x <= (basketX + BASKET_WIDTH) as real ==>
      Caught(o, basketX)
  {
    o.y + OBJECT_SIZE as real >= BASKET_Y as real &&
    o.x + OBJECT_SIZE as real >= basketX as real &&
    o.x <= (basketX + BASKET_WIDTH) as real
  }

  /** The ground test: the object's top is below the canvas; no object in the field has landed. */
  predicate Landed(o: Obj)
    ensures InField(o) ==> !Landed(o)
  {
    o.y > CANVAS_HEIGHT as real
  }

  /** Where every object stays between ticks: spawned inside, not yet landed. */
  predicate InField(o: Obj)
  {
    0.0 <= o.x < (CANVAS_WIDTH - OBJECT_SIZE) as real && 0.0 <= o.y <= CANVAS_HEIGHT as real
  }

  /** Array.prototype.splice(i, 1). */
  function RemoveAt(s: seq<Obj>, i: nat): (r: seq<Obj>)
    requires i < |s|
    ensures |r| == |s| - 1
    ensures forall k :: 0 <= k < |r| ==> r[k] == (if k < i then s[k] else s[k + 1])
  {
    s[..i] + s[i + 1..]
  }

  // ---------------------------------------------------------------------------
  // One iteration of the loop over the falling objects
  // ---------------------------------------------------------------------------

  /** Object i moved down by the current speed. */
  function Advanced(w: World, i: nat): Obj
    requires i < |w.objects|
  {
    w.objects[i].(y := w.objects[i].y + w.speed)
  }

  /** The catch branch: remove object i, score one point, maybe ramp the speed. */
  function CatchCheck(p: SpeedPolicy, w: World, i: nat): (r: World)
    requires i < |w.objects|
    ensures r.lives == w.lives && r.gameOver == w.gameOver && r.highScore == w.highScore
    ensures r.saved == w.saved && r.basketX == w.basketX
    ensures r.score == w.score + (if Caught(w.objects[i], w.basketX) then 1 else 0)
    ensures |r.objects| == |w.objects| - (r.score - w.score)
    ensures w.speed <= r.speed <= w.speed + (if p == Ramping then RAMP_INCREMENT else 0.0)
  {
    if Caught(w.objects[i], w.basketX) then
      var score := w.score + 1;
      w.(objects := RemoveAt(w.objects, i), score := score,
         speed := if p == Ramping && score % RAMP_EVERY == 0 then w.speed + RAMP_INCREMENT else w.speed)
    else
      w
  }

  /**
   * The ground branch, on whatever object now sits in slot i: remove it, lose a
   * life, and end the game when that makes the lives exactly 0, writing out the
   * score if it beats the high score.
   */
  function GroundCheck(w: World, i: nat): (r: World)
    ensures r.score == w.score && r.speed == w.speed && r.basketX == w.basketX
    ensures w.lives - 1 <= r.lives <= w.lives
    ensures |r.objects| == |w.objects| - (w.lives - r.lives)
    ensures r.highScore >= w.highScore && (w.gameOver ==> r.gameOver)
  {
    if i < |w.objects| && Landed(w.objects[i]) then
      var lives := w.lives - 1;
      var record := lives == 0 && w.score > w.highScore;
      w.(objects := RemoveAt(w.objects, i), lives := lives,
         gameOver := lives == 0 || w.gameOver,
         highScore := if record then w.score else w.highScore,
         saved := if record then w.saved + [w.score] else w.saved)
    else
      w
  }

  /** One iteration: move object i, then the catch branch, then the ground branch. */
  function Visit(p: SpeedPolicy, w: World, i: nat): (r: World)
    requires i < |w.objects|
    ensures |r.objects| <= |w.objects| && r.basketX == w.basketX
    ensures w.score <= r.score <= w.score + 1 && w.lives - 1 <= r.lives <= w.lives
  {
    GroundCheck(CatchCheck(p, w.(objects := w.objects[i := Advanced(w, i)]), i), i)
  }

  /** The loop from index i on; the index always moves on, also after a splice. */
  function Sweep(p: SpeedPolicy, w: World, i: nat): (r: World)
    ensures |r.objects| <= |w.objects| && r.basketX == w.basketX
    ensures r.score - w.score <= |w.objects| && r.highScore >= w.highScore
    decreases |w.objects| - i
  {
    if i < |w.objects| then Sweep(p, Visit(p, w, i), i + 1) else w
  }

  /** spawnObject: x scaled from a roll in [0, 1) to [0, 580), y at the top, inside the field. */
  function Spawned(xRoll: real): (r: Obj)
    ensures 0.0 <= xRoll < 1.0 ==> InField(r) && r.y == 0.0
  {
    Obj(xRoll * (CANVAS_WIDTH - OBJECT_SIZE) as real, 0.0)
  }

  /**
   * One call of updateGameState, with the two random draws given as rolls; an
   * object spawns when spawnRoll < 0.02. A finished game is left alone.
   */
  function TickSpec(p: SpeedPolicy, w: World, left: bool, right: bool, spawnRoll: real, xRoll: real): (r: World)
    ensures w.gameOver ==> r == w
    ensures !w.gameOver ==> r.basketX == MoveBasket(w.basketX, left, right)
    ensures |r.objects| <= |w.objects| + (if spawnRoll < SPAWN_CHANCE then 1 else 0)
  {
    if w.gameOver then w
    else
      var swept := Sweep(p, w.(basketX := MoveBasket(w.basketX, left, right)), 0);
      if spawnRoll < SPAWN_CHANCE then swept.(objects := swept.objects + [Spawned(xRoll)]) else swept
  }

  /**
   * resetGame: a fresh session; the high score, the speed and the log survive.
   * The fresh session satisfies the invariant exactly when the kept speed fits the policy.
   */
  function Restarted(w: World): (r: World)
    ensures r.highScore == w.highScore && r.speed == w.speed && r.saved == w.saved
    ensures Inv(Fixed, r) <==> w.speed == FIXED_SPEED
    ensures Inv(Ramping, r) <==> w.speed >= RAMPING_BASE_SPEED
  {
    Initial(w.highScore, w.speed, w.saved)
  }

  // ---------------------------------------------------------------------------
  // The invariant every reachable state keeps
  // ---------------------------------------------------------------------------

  predicate PolicySpeed(p: SpeedPolicy, speed: real)
  {
    match p
    case Ramping => speed >= RAMPING_BASE_SPEED
    case Fixed => speed == FIXED_SPEED
  }

  predicate Inv(p: SpeedPolicy, w: World)
  {
    OnTrack(w.basketX) &&
    w.score >= 0 && w.lives <= START_LIVES &&
    (w.gameOver <==> w.lives <= 0) &&
    PolicySpeed(p, w.speed) &&
    forall k :: 0 <= k < |w.objects| ==> InField(w.objects[k])
  }

  // ---------------------------------------------------------------------------
  // Lemmas about one iteration
  // ---------------------------------------------------------------------------

  /** A caught object is removed, scores exactly one point and ramps on every tenth point. */
  lemma VisitCatch(p: SpeedPolicy, w: World, i: nat)
    requires i < |w.objects| && Caught(Advanced(w, i), w.basketX)
    ensures Visit(p, w, i).score == w.score + 1
    ensures Visit(p, w, i).speed ==
      w.speed + (if p == Ramping && (w.score + 1) % RAMP_EVERY == 0 then RAMP_INCREMENT else 0.0)
    ensures i + 1 < |w.objects| && Landed(w.objects[i + 1]) ==>
      Visit(p, w, i).objects == w.objects[..i] + w.objects[i + 2..] && Visit(p, w, i).lives == w.lives - 1
    ensures !(i + 1 < |w.objects| && Landed(w.objects[i + 1])) ==>
      Visit(p, w, i).objects == w.objects[..i] + w.objects[i + 1..] && Visit(p, w, i).lives == w.lives
  {
    var a := Advanced(w, i);
    var c := CatchCheck(p, w.(objects := w.objects[i := a]), i);
    assert c.objects == w.objects[..i] + w.objects[i + 1..];
    if i + 1 < |w.objects| && Landed(w.objects[i + 1]) {
      assert c.objects[i] == w.objects[i + 1];
      assert RemoveAt(c.objects, i) == w.objects[..i] + w.objects[i + 2..];
    }
  }

  /** An object that is not caught scores nothing; it is either missed or moved by the speed. */
  lemma VisitNoCatch(p: SpeedPolicy, w: World, i: nat)
    requires i < |w.objects| && !Caught(Advanced(w, i), w.basketX)
    ensures Visit(p, w, i).score == w.score && Visit(p, w, i).speed == w.speed
    ensures Landed(Advanced(w, i)) ==>
      Visit(p, w, i).objects == w.objects[..i] + w.objects[i + 1..] && Visit(p, w, i).lives == w.lives - 1
    ensures !Landed(Advanced(w, i)) ==>
      Visit(p, w, i) == w.(objects := w.objects[..i] + [Obj(w.objects[i].x, w.objects[i].y + w.speed)] + w.objects[i + 1..])
  {
    var a := Advanced(w, i);
    assert w.objects[i := a] == w.objects[..i] + [a] + w.objects[i + 1..];
    if Landed(a) {
      assert RemoveAt(w.objects[i := a], i) == w.objects[..i] + w.objects[i + 1..];
    }
  }

  /**
   * The game ends only when one miss takes the lives from 1 to exactly 0; at that
   * moment the high score becomes the larger of itself and the score, and a new
   * record is written out exactly once. Otherwise neither changes.
   */
  lemma VisitGameOver(p: SpeedPolicy, w: World, i: nat)
    requires i < |w.objects| && (w.gameOver ==> w.lives <= 0)
    ensures w.gameOver ==> Visit(p, w, i).gameOver
    ensures !w.gameOver && Visit(p, w, i).gameOver ==>
      w.lives == 1 && Visit(p, w, i).lives == 0 &&
      Visit(p, w, i).highScore == (if Visit(p, w, i).score > w.highScore then Visit(p, w, i).score else w.highScore) &&
      Visit(p, w, i).saved == w.saved + (if Visit(p, w, i).score > w.highScore then [Visit(p, w, i).score] else [])
    ensures w.gameOver == Visit(p, w, i).gameOver ==>
      Visit(p, w, i).highScore == w.highScore && Visit(p, w, i).saved == w.saved
  {
  }

  lemma VisitKeepsInv(p: SpeedPolicy, w: World, i: nat)
    requires i < |w.objects| && Inv(p, w)
    ensures Inv(p, Visit(p, w, i))
  {
    var a := Advanced(w, i);
    if Caught(a, w.basketX) {
      VisitCatch(p, w, i);
      if i + 1 < |w.objects| {
        assert InField(w.objects[i + 1]);
      }
      var r := Visit(p, w, i);
      forall k | 0 <= k < |r.objects| ensures InField(r.objects[k]) {
        assert r.objects[k] == (if k < i then w.objects[k] else w.objects[k + 1]);
      }
    } else {
      VisitNoCatch(p, w, i);
      var r := Visit(p, w, i);
      forall k | 0 <= k < |r.objects| ensures InField(r.objects[k]) {
        if Landed(a) {
          assert r.objects[k] == (if k < i then w.objects[k] else w.objects[k + 1]);
        } else if k != i {
          assert r.objects[k] == w.objects[k];
        }
      }
    }
  }

  // ---------------------------------------------------------------------------
  // Lemmas about the whole loop
  // ---------------------------------------------------------------------------

  /** One iteration, in aggregate: the bookkeeping that SweepAccounting adds up. */
  lemma VisitAccounting(p: SpeedPolicy, w: World, i: nat)
    requires i < |w.objects|
    ensures |Visit(p, w, i).objects| >= i && Visit(p, w, i).objects[..i] == w.objects[..i]
    ensures |Visit(p, w, i).objects| + (Visit(p, w, i).score - w.score) + (w.lives - Visit(p, w, i).lives) == |w.objects|
    ensures Visit(p, w, i).score >= w.score && Visit(p, w, i).lives <= w.lives
    ensures Visit(p, w, i).speed >= w.speed
    ensures Visit(p, w, i).basketX == w.basketX
    ensures w.gameOver ==> Visit(p, w, i).gameOver
  {
    if Caught(Advanced(w, i), w.basketX) { VisitCatch(p, w, i); } else { VisitNoCatch(p, w, i); }
  }

  /**
   * Over the rest of the loop: the objects before the index are untouched, every
   * removed object is either a catch (one point each) or a miss (one life each),
   * the score and speed never go down, the lives never go up, and a finished game
   * stays finished.
   */
  lemma {:induction false} SweepAccounting(p: SpeedPolicy, w: World, i: nat)
    requires i <= |w.objects|
    ensures |Sweep(p, w, i).objects| >= i && Sweep(p, w, i).objects[..i] == w.objects[..i]
    ensures |Sweep(p, w, i).objects| + (Sweep(p, w, i).score - w.score) + (w.lives - Sweep(p, w, i).lives) == |w.objects|
    ensures Sweep(p, w, i).score >= w.score && Sweep(p, w, i).lives <= w.lives
    ensures Sweep(p, w, i).speed >= w.speed
    ensures Sweep(p, w, i).basketX == w.basketX
    ensures w.gameOver ==> Sweep(p, w, i).gameOver
    decreases |w.objects| - i
  {
    if i < |w.objects| {
      var v := Visit(p, w, i);
      VisitAccounting(p, w, i);
      if i + 1 <= |v.objects| {
        SweepAccounting(p, v, i + 1);
        var r := Sweep(p, v, i + 1);
        assert r.objects[..i] == r.objects[..i + 1][..i];
        assert v.objects[..i] == v.objects[..i + 1][..i];
      } else {
        assert Sweep(p, v, i + 1) == v;
      }
    }
  }

  lemma {:induction false} SweepKeepsInv(p: SpeedPolicy, w: World, i: nat)
    requires Inv(p, w)
    ensures Inv(p, Sweep(p, w, i))
    decreases |w.objects| - i
  {
    if i < |w.objects| {
      VisitKeepsInv(p, w, i);
      SweepKeepsInv(p, Visit(p, w, i), i + 1);
    }
  }

  /**
   * Under the ramping policy the speed is 1 plus 0.5 for every completed ten
   * points, counting `carried` steps earned in earlier sessions which a reset
   * does not take back.
   */
  lemma {:induction false} SweepSpeedFollowsScore(w: World, i: nat, carried: nat)
    requires w.score >= 0
    requires w.speed == RAMPING_BASE_SPEED + RAMP_INCREMENT * (carried + w.score / RAMP_EVERY) as real
    ensures Sweep(Ramping, w, i).score >= 0
    ensures Sweep(Ramping, w, i).speed ==
      RAMPING_BASE_SPEED + RAMP_INCREMENT * (carried + Sweep(Ramping, w, i).score / RAMP_EVERY) as real
    decreases |w.objects| - i
  {
    if i < |w.objects| {
      var v := Visit(Ramping, w, i);
      if Caught(Advanced(w, i), w.basketX) {
        VisitCatch(Ramping, w, i);
        TenthPoint(w.score);
      } else {
        VisitNoCatch(Ramping, w, i);
      }
      SweepSpeedFollowsScore(v, i + 1, carried);
    }
  }

  lemma TenthPoint(s: nat)
    ensures (s + 1) / RAMP_EVERY == s / RAMP_EVERY + (if (s + 1) % RAMP_EVERY == 0 then 1 else 0)
  {
    var q, m := s / RAMP_EVERY, s % RAMP_EVERY;
    assert s == RAMP_EVERY * q + m;
    if m == RAMP_EVERY - 1 {
      assert s + 1 == RAMP_EVERY * (q + 1);
    } else {
      assert s + 1 == RAMP_EVERY * q + (m + 1);
    }
  }

  /**
   * The high score changes at most once per loop, when the game ends with a
   * score above it, and that value is the one written out.
   */
  lemma {:induction false} SweepRecordsOnce(p: SpeedPolicy, w: World, i: nat)
    requires w.gameOver ==> w.lives <= 0
    ensures Sweep(p, w, i).gameOver ==> Sweep(p, w, i).lives <= 0
    ensures Sweep(p, w, i).saved ==
      w.saved + (if Sweep(p, w, i).highScore != w.highScore then [Sweep(p, w, i).highScore] else [])
    ensures Sweep(p, w, i).highScore != w.highScore ==>
      !w.gameOver && Sweep(p, w, i).gameOver && w.highScore < Sweep(p, w, i).highScore <= Sweep(p, w, i).score
    decreases |w.objects| - i
  {
    if i < |w.objects| {
      var v := Visit(p, w, i);
      VisitGameOver(p, w, i);
      SweepRecordsOnce(p, v, i + 1);
      SweepAccounting(p, v, if i + 1 <= |v.objects| then i + 1 else |v.objects|);
      if i + 1 > |v.objects| {
        assert Sweep(p, v, i + 1) == v;
      }
    }
  }

  function Max(a: int, b: int): int
  {
    if a < b then b else a
  }

  /** The score at the iteration of the loop that ends the game (the score at the end if none does). */
  function ScoreAtGameOver(p: SpeedPolicy, w: World, i: nat): int
    decreases |w.objects| - i
  {
    if i < |w.objects| then
      var v := Visit(p, w, i);
      if !w.gameOver && v.gameOver then v.score else ScoreAtGameOver(p, v, i + 1)
    else
      w.score
  }

  /**
   * A loop that ends a running game leaves the high score at the larger of its
   * old value and the score at the moment the game ended, a score between the
   * one the loop started with and the one it ends with.
   */
  lemma {:induction false} SweepHighScoreAtGameOver(p: SpeedPolicy, w: World, i: nat)
    requires w.gameOver ==> w.lives <= 0
    ensures !w.gameOver && Sweep(p, w, i).gameOver ==>
      w.score <= ScoreAtGameOver(p, w, i) <= Sweep(p, w, i).score &&
      Sweep(p, w, i).highScore == Max(w.highScore, ScoreAtGameOver(p, w, i))
    decreases |w.objects| - i
  {
    if i < |w.objects| {
      var v := Visit(p, w, i);
      VisitGameOver(p, w, i);
      VisitAccounting(p, w, i);
      SweepRecordsOnce(p, v, i + 1);
      if i + 1 <= |v.objects| {
        SweepAccounting(p, v, i + 1);
      } else {
        assert Sweep(p, v, i + 1) == v;
      }
      if !(!w.gameOver && v.gameOver) {
        SweepHighScoreAtGameOver(p, v, i + 1);
      }
    }
  }

  /** An object visited and neither caught nor landed ends the tick in its slot, moved by exactly the speed. */
  lemma KeptObjectMovedOnce(p: SpeedPolicy, w: World, i: nat)
    requires i < |w.objects|
    requires !Caught(Advanced(w, i), w.basketX) && !Landed(Advanced(w, i))
    ensures i < |Sweep(p, w, i).objects|
    ensures Sweep(p, w, i).objects[i] == Obj(w.objects[i].x, w.objects[i].y + w.speed)
  {
    VisitNoCatch(p, w, i);
    var v := Visit(p, w, i);
    assert v.objects[i] == Obj(w.objects[i].x, w.objects[i].y + w.speed);
    SweepAccounting(p, v, i + 1);
    assert Sweep(p, w, i).objects[..i + 1][i] == v.objects[..i + 1][i];
  }

  /**
   * After a splice at slot i the next object shifts into slot i while the index
   * moves past it: provided it had not already landed, it ends the tick in slot i
   * exactly where it started.
   */
  lemma ShiftedObjectNotMoved(p: SpeedPolicy, w: World, i: nat)
    requires i + 1 < |w.objects|
    requires Caught(Advanced(w, i), w.basketX) || Landed(Advanced(w, i))
    requires !Landed(w.objects[i + 1])
    ensures i < |Sweep(p, w, i).objects|
    ensures Sweep(p, w, i).objects[i] == w.objects[i + 1]
  {
    var v := Visit(p, w, i);
    if Caught(Advanced(w, i), w.basketX) { VisitCatch(p, w, i); } else { VisitNoCatch(p, w, i); }
    assert v.objects[i] == w.objects[i + 1];
    SweepAccounting(p, v, i + 1);
    assert Sweep(p, w, i).objects[..i + 1][i] == v.objects[..i + 1][i];
  }

  // ---------------------------------------------------------------------------
  // Lemmas about a whole tick
  // ---------------------------------------------------------------------------

  lemma TickKeepsInv(p: SpeedPolicy, w: World, left: bool, right: bool, spawnRoll: real, xRoll: real)
    requires Inv(p, w) && 0.0 <= xRoll < 1.0
    ensures Inv(p, TickSpec(p, w, left, right, spawnRoll, xRoll))
  {
    if !w.gameOver {
      var moved := w.(basketX := MoveBasket(w.basketX, left, right));
      SweepKeepsInv(p, moved, 0);
    }
  }

  /**
   * A tick of a running game: the objects it ends with are the swept ones plus
   * exactly one new object at the top when the roll spawns; catches and misses
   * account for every removed object; score and high score never go down, the
   * lives never go up, and the high score changes only at game over.
   */
  lemma TickAccounting(p: SpeedPolicy, w: World, left: bool, right: bool, spawnRoll: real, xRoll: real)
    requires Inv(p, w)
    ensures var r := TickSpec(p, w, left, right, spawnRoll, xRoll);
      r.score >= w.score && r.lives <= w.lives && r.speed >= w.speed && r.highScore >= w.highScore &&
      r.basketX == (if w.gameOver then w.basketX else MoveBasket(w.basketX, left, right)) &&
      |r.objects| + (r.score - w.score) + (w.lives - r.lives) ==
        |w.objects| + (if !w.gameOver && spawnRoll < SPAWN_CHANCE then 1 else 0) &&
      (!w.gameOver && spawnRoll < SPAWN_CHANCE ==> r.objects[|r.objects| - 1] == Spawned(xRoll)) &&
      (r.highScore != w.highScore ==> !w.gameOver && r.gameOver && r.highScore <= r.score) &&
      r.saved == w.saved + (if r.highScore != w.highScore then [r.highScore] else [])
  {
    if !w.gameOver {
      var moved := w.(basketX := MoveBasket(w.basketX, left, right));
      SweepAccounting(p, moved, 0);
      SweepRecordsOnce(p, moved, 0);
    }
  }

  /**
   * A tick that ends a running game leaves the high score at the larger of the
   * old one and the score the game ended with, which lies between the score
   * before the tick and the score after it.
   */
  lemma TickHighScoreAtGameOver(p: SpeedPolicy, w: World, left: bool, right: bool, spawnRoll: real, xRoll: real)
    requires Inv(p, w)
    ensures var r := TickSpec(p, w, left, right, spawnRoll, xRoll);
      var ending := ScoreAtGameOver(p, w.(basketX := MoveBasket(w.basketX, left, right)), 0);
      !w.gameOver && r.gameOver ==> w.score <= ending <= r.score && r.highScore == Max(w.highScore, ending)
  {
    if !w.gameOver {
      SweepHighScoreAtGameOver(p, w.(basketX := MoveBasket(w.basketX, left, right)), 0);
    }
  }

  /** Under ramping, a tick keeps the speed at 1 + 0.5 × (carried steps + score / 10). */
  lemma TickSpeedFollowsScore(w: World, left: bool, right: bool, spawnRoll: real, xRoll: real, carried: nat)
    requires w.score >= 0
    requires w.speed == RAMPING_BASE_SPEED + RAMP_INCREMENT * (carried + w.score / RAMP_EVERY) as real
    ensures var r := TickSpec(Ramping, w, left, right, spawnRoll, xRoll);
      r.speed == RAMPING_BASE_SPEED + RAMP_INCREMENT * (carried + r.score / RAMP_EVERY) as real
  {
    if !w.gameOver {
      SweepSpeedFollowsScore(w.(basketX := MoveBasket(w.basketX, left, right)), 0, carried);
    }
  }

  /** Under the fixed policy every object that is visited and kept moves by exactly 2. */
  lemma FixedKeptObjectMovesTwo(w: World, i: nat)
    requires Inv(Fixed, w) && i < |w.objects|
    requires !Caught(Advanced(w, i), w.basketX) && !Landed(Advanced(w, i))
    ensures i < |Sweep(Fixed, w, i).objects|
    ensures Sweep(Fixed, w, i).objects[i] == Obj(w.objects[i].x, w.objects[i].y + 2.0)
    ensures Sweep(Fixed, w, i).speed == 2.0
  {
    KeptObjectMovedOnce(Fixed, w, i);
    SweepKeepsInv(Fixed, w, i);
  }

  /**
   * The loop is not stopped by the end of the game: with one life left, an
   * object that lands, one skipped after its splice and a second one that lands
   * take the lives to -1 in a single pass.
   */
  lemma LivesCanDropBelowZero()
    ensures var w := World(BASKET_START_X, [Obj(0.0, 400.0), Obj(0.0, 0.0), Obj(0.0, 400.0)],
                           0, 1, 0, false, FIXED_SPEED, []);
      Inv(Fixed, w) && Sweep(Fixed, w, 0).gameOver && Sweep(Fixed, w, 0).lives == -1
  {
    var w := World(BASKET_START_X, [Obj(0.0, 400.0), Obj(0.0, 0.0), Obj(0.0, 400.0)],
                   0, 1, 0, false, FIXED_SPEED, []);
    var v0 := Visit(Fixed, w, 0);
    VisitNoCatch(Fixed, w, 0);
    assert v0.objects == [Obj(0.0, 0.0), Obj(0.0, 400.0)] && v0.lives == 0 && v0.gameOver;
    var v1 := Visit(Fixed, v0, 1);
    VisitNoCatch(Fixed, v0, 1);
    assert v1.objects == [Obj(0.0, 0.0)] && v1.lives == -1 && v1.gameOver;
    assert Sweep(Fixed, v1, 2) == v1;
  }

  /**
   * The score the game ends with can exceed the high score: an object caught
   * later in the pass that ended the game scores after the high score was settled.
   */
  lemma ScoreCanPassHighScoreAtGameOver()
    ensures var w := World(BASKET_START_X, [Obj(0.0, 400.0), Obj(0.0, 0.0), Obj(260.0, 360.0)],
                           0, 1, 0, false, FIXED_SPEED, []);
      Inv(Fixed, w) && Sweep(Fixed, w, 0).gameOver &&
      Sweep(Fixed, w, 0).score == 1 && Sweep(Fixed, w, 0).highScore == 0 && Sweep(Fixed, w, 0).saved == []
  {
    var w := World(BASKET_START_X, [Obj(0.0, 400.0), Obj(0.0, 0.0), Obj(260.0, 360.0)],
                   0, 1, 0, false, FIXED_SPEED, []);
    var v0 := Visit(Fixed, w, 0);
    VisitNoCatch(Fixed, w, 0);
    assert v0.objects == [Obj(0.0, 0.0), Obj(260.0, 360.0)] && v0.lives == 0 && v0.gameOver;
    assert v0.highScore == 0 && v0.score == 0 && v0.saved == [];
    var v1 := Visit(Fixed, v0, 1);
    VisitCatch(Fixed, v0, 1);
    assert v1.objects == [Obj(0.0, 0.0)] && v1.score == 1;
    assert Sweep(Fixed, v1, 2) == v1;
  }
}
