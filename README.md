# Falling-objects catch game: a Dafny model

This project models a browser "catch the falling objects" game and its small high-score server.
A basket at the bottom of a 600 by 400 canvas moves left and right in steps of 5.
Objects of size 20 spawn at the top and fall.
An object that reaches the basket's top edge while overlapping it horizontally is caught: it is removed and scores a point.
An object whose top passes the bottom of the canvas is missed: it is removed and costs a life.
The game ends when a miss takes the lives to exactly 0, and the high score is then updated.

The repository has two near-identical game scripts:

- `script1.js` is the networked game. The fall speed starts at 1 and rises by 0.5 at every tenth point. The high score is fetched from the server at start-up, and a new record is POSTed back.
- `script.js` is the local game. Objects fall at a constant 2, and the high score is kept in the browser's local storage.

`server.js` keeps one in-memory integer. A POST replaces it only with a strictly larger value.

## How the model is organised

- `simulation.dfy`, module `Simulation`, holds the update rule of both scripts stated on values:
  - `World` is a snapshot of the scripts' module-level variables.
  - `MoveBasket` is the basket step.
  - `Caught` is the catch test and `Landed` the ground test.
  - `Visit` is one iteration of the loop over the objects, built from `CatchCheck` and then `GroundCheck`.
  - `Sweep` is the loop from an index to its end, and `TickSpec` is one whole call of `updateGameState`.
  - `ScoreAtGameOver` is the score at the iteration that ends the game, which fixes the high score.
  - A `SpeedPolicy` (`Ramping` for `script1.js`, `Fixed` for `script.js`) is the only difference between the two scripts.
  - `World.saved` logs each new high score that a script writes out: a POST in `script1.js`, a local-storage write in `script.js`.
  - `Inv` is the invariant every reachable state keeps, and the lemmas state what one iteration, one loop and one tick do.
- `ramping_game.dfy` (module `RampingGame`) and `local_game.dfy` (module `LocalGame`) each hold a class `Game`:
  - Its fields are the script's global variables.
  - Its methods `Tick`, `Reset` and `RestartKey` change them step by step, as the script does. `Tick` is split into `Advance` (the part after the game-over guard), `SweepObjects` (the loop), `VisitSlot` (one loop body), `CatchSlot` and `GroundSlot` (its two branches).
  - The loop keeps the source's index `i`. The loop index always advances, and `splice(i, 1)` (`RemoveAt`) removes in place with no `i--`.
  - Each `Tick` is proved equal to `TickSpec` of the old state, and keeps `Valid()`.
- `high_score_store.dfy` (module `HighScoreStore`) holds the server:
  - A class `Store` with `Get` and `Post`.
  - `Next`, the POST rule, and `Replay` and `Accepted`, which give the stored value and the accepted posts after any sequence of POSTs.

Coordinates of objects are `real`, which is exact here.
The speeds are 1, 1.5, 2, and so on, and a spawn position is a random draw times 580.
The basket's `x` is an `int`: it starts at 260 and only ever moves by 5.
The two `Math.random()` draws of a tick are the `Tick` inputs `spawnRoll` (an object spawns when it is below 0.02) and `xRoll` (the object's x is then `xRoll * 580`).
Both lie in [0, 1).

Behaviour of the code that the model keeps:

- The loop is not stopped when the game ends. Further catches and misses in the same tick still count. Lives are not clamped at 0, so they can drop below 0 (`LivesCanDropBelowZero`). The final score can also exceed the high score that was settled at the moment of game over (`ScoreCanPassHighScoreAtGameOver`).
- After a splice at slot `i`, the next object shifts into slot `i` and is not moved that tick (`ShiftedObjectNotMoved`). It is still ground-checked. Every object lies at or above the canvas bottom between ticks (`Inv`), so in reachable states that ground check never removes the shifted object.
- In `script1.js`, `resetGame` does not reset `fallingSpeed`, so the speed carries over between sessions. `RampingGame.Game.Valid()` states it as 1 + 0.5 × (steps carried from earlier sessions + score / 10).
- At game over, `script1.js` adopts the new score as its local high score before it submits it to the server.
- The basket's top edge is at y = 370 (canvas height minus 30).
- A completed start-up fetch may lower the local high score (`FetchCompleted` takes whatever the server answered).

## Model

| member | source | states |
|---|---|---|
| Simulation.MoveBasket | script1.js:69-70 | An on-track basket (a multiple of 5 in [0, 520]) stays on track under any flags. Each flag moves it by 5 unless its wall blocks it. Both flags together cancel, except at the left wall, where only the right step applies. |
| Simulation.RemoveAt | script1.js:82 | `splice(i, 1)`: one element fewer, earlier elements kept, later ones shifted down by one. |
| Simulation.Caught | script1.js:77-81 | The catch test. It runs before the ground test, so an object that has passed the canvas bottom while overlapping the basket horizontally still counts as caught. |
| Simulation.Landed | script1.js:92 | The ground test: the object's top is below the canvas. No object inside the field has landed. |
| Simulation.CatchCheck | script1.js:77-89 | The collision branch changes only the objects, the score and the speed. The score rises by 1 exactly when the object is caught, and that object is removed. The speed rises by at most 0.5, and only under ramping. |
| Simulation.GroundCheck | script1.js:92-107 | The ground branch leaves score, speed and basket alone. It costs at most one life, and removes exactly one object per life lost. The high score only rises, and a finished game stays finished. |
| Simulation.Visit | script1.js:73-107 | One iteration never adds objects and never moves the basket. It makes at most one catch and at most one miss. |
| Simulation.Sweep | script1.js:73 | The loop from any index never adds objects and never moves the basket. It scores at most one point per object, and the high score never drops. |
| Simulation.TickSpec | script1.js:65-112 | A tick of a finished game changes nothing. Otherwise the basket takes one `MoveBasket` step, and the tick adds at most one object, and only when the spawn roll is below 0.02. |
| Simulation.Spawned | script1.js:47-50 | From a roll in [0, 1), `spawnObject` puts the new object inside the field, with 0 ≤ x < 580 and y = 0. |
| Simulation.Restarted | script1.js:53-59 | `resetGame` keeps the high score, the speed and the log of writes. The fresh session satisfies the invariant exactly when the kept speed fits the script's policy: 2 for `script.js`, at least 1 for `script1.js`. |
| Simulation.VisitCatch | script1.js:74-89 | When the moved object is caught: it is removed and the score rises by exactly 1. The speed rises by 0.5 exactly when the policy ramps and the new score is a multiple of 10. The object shifted into the slot is removed as a miss only if it had already landed. |
| Simulation.VisitNoCatch | script1.js:92-98 | When the moved object is not caught: score and speed are unchanged. If it landed, it is removed and costs exactly one life; otherwise it stays in its slot, moved down by the speed. |
| Simulation.VisitGameOver | script1.js:97-105 | The game ends only when one miss takes the lives from 1 to exactly 0. At that moment the high score becomes the larger of itself and the score, and a beaten record is logged exactly once. Otherwise neither changes, and a finished game stays finished. |
| Simulation.VisitKeepsInv | script1.js:73-108 | One iteration keeps the invariant. The basket is on track, the score is at least 0 and the lives at most 3. The game is over exactly when the lives are at most 0, the speed follows its policy, and all objects are inside the field. |
| Simulation.VisitAccounting | script1.js:73-108 | One iteration leaves earlier slots untouched. Each removed object is a catch or a miss. The score and speed never drop, and the lives never rise. |
| Simulation.SweepAccounting | script1.js:73-108 | Over the rest of the loop, the objects before the index are untouched. Removed objects equal catches plus misses. Score and speed do not drop, lives do not rise, and a finished game stays finished. |
| Simulation.SweepKeepsInv | script1.js:73-108 | The whole loop keeps the invariant. |
| Simulation.SweepSpeedFollowsScore | script1.js:85-88 | Under ramping, the speed stays 1 + 0.5 × (carried steps + score / 10) through the loop. |
| Simulation.TenthPoint | script1.js:86 | One more point crosses a multiple of 10 exactly when it raises score / 10, by exactly 1. |
| Simulation.SweepRecordsOnce | script1.js:97-105 | Within one loop the high score changes at most once, when that loop ends the game. It is then above the old value and at most the final score, and it is the one value logged. |
| Simulation.SweepHighScoreAtGameOver | script1.js:73-107 | A loop that ends a running game leaves the high score at max(old high score, s), where s is the score at the iteration that ended the game. That s lies between the score before the loop and the score after it. |
| Simulation.KeptObjectMovedOnce | script1.js:73-74 | An object that is visited and neither caught nor landed ends the tick in its slot, moved by exactly the current speed. |
| Simulation.ShiftedObjectNotMoved | script1.js:82-93 | After a splice at slot `i`, the object that shifts into slot `i` (not yet landed) ends the tick exactly where it started. |
| Simulation.TickKeepsInv | script1.js:65-112 | A whole tick keeps the invariant, with or without a spawn. |
| Simulation.TickAccounting | script1.js:65-112 | A tick keeps the books: removed objects equal catches plus misses, and a spawn adds exactly one object at the end. Score, speed and high score do not drop, and lives do not rise. The high score changes only at a game over, to at most the score, and it is logged exactly then. |
| Simulation.TickHighScoreAtGameOver | script1.js:65-112 | A tick that ends a running game leaves the high score at max(old high score, s), where s is the score the game ended with. That s lies between the score before the tick and the score after it. |
| Simulation.TickSpeedFollowsScore | script1.js:65-112 | Under ramping, a tick keeps the speed at 1 + 0.5 × (carried steps + score / 10). |
| Simulation.FixedKeptObjectMovesTwo | script.js:54-55 | Under the constant policy, a visited and kept object moves by exactly 2, and the speed stays 2. |
| Simulation.LivesCanDropBelowZero | script.js:54-83 | A concrete loop with one life left: two misses in one tick take the lives to -1 while the game is over. |
| Simulation.ScoreCanPassHighScoreAtGameOver | script.js:58-82 | A concrete loop: a catch after the game-ending miss leaves score 1 above high score 0, with nothing logged. |
| RampingGame.Game.constructor | script1.js:9-14 | The start state: basket at 260, no objects, score 0, 3 lives, high score 0, not over, speed 1. |
| RampingGame.Game.FetchCompleted | script1.js:32-44 | A completed fetch sets the high score to the received value, or to 0 if the value is absent. A failed fetch changes nothing. |
| RampingGame.Game.Tick | script1.js:65-112 | `updateGameState` equals `TickSpec` under ramping and keeps `Valid()`. It does nothing when the game is over. Score, speed and high score do not drop, and lives do not rise. A changed high score was set at game over and submitted exactly once. When the tick ends the game, the high score becomes max(old high score, s) for the score s at game over, with old score ≤ s ≤ new score. |
| RampingGame.Game.Advance | script1.js:68-111 | The part of `updateGameState` after the game-over guard equals `TickSpec` under ramping. |
| RampingGame.Game.SweepObjects | script1.js:73-108 | The `for` loop equals `Sweep` from index 0 under ramping, with the index advancing also after a splice. |
| RampingGame.Game.VisitSlot | script1.js:74-107 | One loop-body pass equals `Visit` under ramping. |
| RampingGame.Game.CatchSlot | script1.js:77-89 | The collision branch equals `CatchCheck` under ramping. |
| RampingGame.Game.GroundSlot | script1.js:92-107 | The ground branch equals `GroundCheck`. It logs `updateHighScore(highScore)` as a submission. |
| RampingGame.Game.Reset | script1.js:53-60 | `resetGame` restores basket 260, no objects, score 0, 3 lives and not over. High score, fall speed and submissions are unchanged. |
| RampingGame.Game.RestartKey | script1.js:175-179 | The 'r' key resets only when the game is over, and otherwise changes nothing. |
| LocalGame.Game.constructor | script.js:9-14 | The start state: the high score is the stored value, or 0 if none is stored. |
| LocalGame.Game.Tick | script.js:46-87 | `updateGameState` equals `TickSpec` at constant speed 2 and keeps `Valid()`. It does nothing when the game is over. Score and high score do not drop, and lives do not rise. A changed high score was set at game over, is at most the score, and is persisted exactly once. When the tick ends the game, the high score becomes max(old high score, s) for the score s at game over, with old score ≤ s ≤ new score. |
| LocalGame.Game.Advance | script.js:49-86 | The part of `updateGameState` after the game-over guard equals `TickSpec` at constant speed 2. |
| LocalGame.Game.SweepObjects | script.js:54-83 | The `for` loop equals `Sweep` from index 0 at constant speed 2. |
| LocalGame.Game.VisitSlot | script.js:55-82 | One loop-body pass equals `Visit` at speed 2. |
| LocalGame.Game.CatchSlot | script.js:58-65 | The collision branch equals `CatchCheck` with no ramp. |
| LocalGame.Game.GroundSlot | script.js:68-82 | The ground branch equals `GroundCheck`. A record is logged as a local-storage write. |
| LocalGame.Game.Reset | script.js:36-43 | `resetGame` restores the start state, keeping the high score. |
| LocalGame.Game.RestartKey | script.js:127-131 | The 'r' key resets only when the game is over. |
| HighScoreStore.Next | server.js:23-28 | The POST rule keeps the larger of the stored value and the posted one. |
| HighScoreStore.Replay | server.js:13-28 | Replaying POSTs from the initial 0 gives a value that is at least 0 and at least the last post. |
| HighScoreStore.Accepted | server.js:23-25 | The accepted posts are no more than the posts, and each of them was posted. |
| HighScoreStore.ReplayIsMaximum | server.js:21-29 | After any sequence of POSTs, the stored value is the maximum of 0 and all posted values. |
| HighScoreStore.ReplayNeverDecreases | server.js:23-28 | Further POSTs never lower the stored value. |
| HighScoreStore.AcceptedIncreasing | server.js:23-25 | The accepted posts are positive and strictly increasing, and the stored value is the last of them (0 if there are none). |
| HighScoreStore.RepostIsRejected | server.js:23-28 | Posting the value just accepted again is rejected and changes nothing. |
| HighScoreStore.Store.constructor | server.js:13 | The stored value starts at 0. |
| HighScoreStore.Store.Get | server.js:16-18 | GET returns the stored value. |
| HighScoreStore.Store.Post | server.js:21-29 | A POST succeeds exactly when n is above the stored value, and then stores n; otherwise nothing changes. The stored value never drops, bounds every post, and is the last accepted post. |

## Left out

- Canvas drawing (`renderGameFrame`) is not modelled: it is presentation only.
- The DOM keyboard listeners are not modelled. The arrow keys are the two boolean `Tick` inputs, and the restart key is `RestartKey`.
- `requestAnimationFrame` and the recursive `gameLoop` are modelled as repeated `Tick` calls. `resetGame` also calls `gameLoop()` at once; that call is the next `Tick`.
- `Math.random()` is not modelled as a source. Its two draws are the `Tick` inputs `spawnRoll` and `xRoll`.
- The HTTP plumbing of `fetchHighScores` and `updateHighScore` is left out. `FetchCompleted` models the effect of a completed fetch. A submission is only logged, because its response does not change the game's state.
- `fetchHighScores` runs asynchronously, so its completion can interleave with any tick. The model lets `FetchCompleted` be called at any point, but does not model the timing.
- Local-storage reads and writes are not modelled. The stored value is the constructor's `Option<int>`. A write is logged in `persisted`. The string-to-number coercion of the stored value is not modelled, because the high score is an `int`.
- Express, CORS, JSON body parsing and `listen` are not modelled. `Post` takes an `int`, so a missing or malformed `highScore` field (compared under JavaScript's coercion rules) is outside the model.
- IEEE-754 rounding of `Math.random() * 580` and of the falling positions is not modelled: coordinates are exact reals.
