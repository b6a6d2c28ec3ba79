# Monad Snake game engine in Dafny

A model of the browser client's game engine in `public/script.js`: a snake on
a COLS x ROWS torus that moves one cell per tick, grows when it eats the
food, stops when it runs into itself, collects a randomly drawn token label
into the `counts` ledger on every meal, loses hearts on external "special
pickup missed" events, and has its ledger zeroed when a reward claim
succeeds.

The page keeps all of this in module-level variables; here it is one
immutable `Session` record (`board`, `alive`, `hearts`, `counts`, and the
`Game` that `startGame` creates: `snake`, `dir`, `nextDir`, `food`,
`specialTimer`) and every handler is a pure function on it.

Modules:

- `Wrappers` — `Option`.
- `Grid` — cells, unit directions, JavaScript's truncating `%` (`JsRem`) and
  the head step `(x+dx+COLS)%COLS`, proved equal to the torus step.
- `Ledger` — `counts` as `map<string, Tally>` with `Tally = Num(n) | NaN`:
  the page initialises only DAK, CHOG and MON, yet a meal draws from all four
  token labels, and `counts.YAKI += 1` on a missing key gives NaN in
  JavaScript, which every later `+= 1` keeps. A meal adds 1 whatever the
  token's `inc` field says.
- `Food` — `spawnFood`'s rejection sampling over a caller-given stream of
  random cells, as a recursive function and as the do-while loop.
- `Engine` — `startGame`, the payment confirmation, `update` (`Tick`), the
  keydown handler, `loseHeart`, the ledger side of `claimTokens`, and the
  invariant `Inv`.
- `Play` — events, runs of events from page load, and the lemmas.

Random choices are parameters: `Tick` takes the drawn token index and the
cell that food placement settled on; the special pickup's timeout is the
external `HeartLost` event; the claim server's answer is a boolean.

The code has a few surprises, and the model follows it: a meal credits 1
rather than the token's `inc`; a direction key is accepted only when it is
perpendicular to the committed direction (so a key for the current
direction is ignored too, not just the reverse); there is no positioned
special item, only `specialTimer` cycling through 0..399 and a timeout that
always costs a heart; and the session is just the `alive` flag plus the game
having been started.

## Model

| member | source | states |
|---|---|---|
| Grid.JsRem | public/script.js:219 | JavaScript's remainder for a positive divisor: strictly between -n and n, with the dividend's sign, and Euclidean for non-negative dividends |
| Grid.WrapCases | public/script.js:219 | proof helper for `Wrap`: adding the dimension before the remainder brings a coordinate one step off the board back onto the torus (-1 becomes n-1, n becomes 0, others stay) |
| Grid.Wrap | public/script.js:219 | one head coordinate `(v+d+n)%n`, for an on-board coordinate and a step in -1..1, is the torus step: the last cell below 0, the first cell past n-1, else v+d |
| Grid.NextHead | public/script.js:219 | the new head of an on-board head moving in a unit direction is on the board, each coordinate stepped on the torus |
| Grid.TorusIsMod | public/script.js:219 | proof helper for `WrapIsTorusStep`: for a coordinate at most one step off the board, the torus step equals the Euclidean remainder |
| Grid.WrapIsTorusStep | public/script.js:219 | for an on-board coordinate and a step in -1..1, `(v+d+n)%n` is in `[0,n)`, equals `(v+d) mod n`, gives n-1 when stepping below 0 and 0 when stepping past n-1 |
| Grid.NextHeadOnBoard | public/script.js:219 | the new head is on the board and equals the old head plus the direction modulo each dimension |
| Grid.LeftFromFirstColumn | public/script.js:219 | moving left from x = 0 lands on x = COLS-1 in the same row |
| Grid.PerpendicularIsNotReverse | public/script.js:289-295 | a direction on the other axis is neither the same direction nor its reverse |
| Ledger.Credit | public/script.js:230-231 | `counts[label] += 1`: only that key changes, a number rises by 1, a missing or NaN key becomes NaN, the key set gains exactly that label |
| Ledger.Claim | public/script.js:127-135 | on an `ok` reply every existing key becomes 0 and no key is added or removed; on any failure the ledger is unchanged |
| Ledger.CreditInitialLabel | public/script.js:55 | crediting DAK, CHOG or MON keeps the key set, raises that key and the three-key total by exactly 1 |
| Ledger.CreditYakiIsNaN | public/script.js:21-29 | YAKI is drawable but not an initial key, so drawing it adds a YAKI key holding NaN and leaves the initial keys alone |
| Ledger.CreditAllCounts | public/script.js:231 | a numeric key, after any sequence of meals, holds its start value plus the number of times its label was drawn |
| Ledger.CreditAllKeepsNaN | public/script.js:231 | a NaN key stays NaN under any sequence of meals |
| Ledger.CreditAllKeys | public/script.js:231 | meals never remove keys and add exactly the drawn labels |
| Ledger.ClaimThenCollect | public/script.js:131 | after a successful claim a key counts exactly the meals of its label made since |
| Ledger.ClaimIdempotent | public/script.js:131 | a second successful claim changes nothing, and a failed one after a success leaves the zeroed ledger |
| Food.SpawnFood | public/script.js:206-213 | the placed food is on the board and off the body; it is the first draw off the body; a placement exists exactly when some draw is off the body |
| Food.SpawnFoodLoop | public/script.js:206-213 | the do-while rejection loop returns the same cell as the recursive definition |
| Engine.PageLoad | public/script.js:53-60 | the page starts not alive, with no game, 3 hearts and exactly the keys DAK, CHOG, MON at 0 |
| Engine.Centre | public/script.js:198 | the start cell is on the board and in the middle of each dimension (equal distance to both edges, or one nearer the far edge) |
| Engine.StartGame | public/script.js:197-202 | the snake is the single cell `(COLS/2, ROWS/2)`, heading right with the same pending direction, the food is the placed cell and off the snake, special timer 0 |
| Engine.PayConfirmed | public/script.js:105-108 | after a confirmed payment the game is alive and a fresh game is started (centre cell, heading right, the placed food, timer 0), hearts and counts carried over |
| Engine.Collides | public/script.js:222 | a collision is some segment, the tail included, with both coordinates equal to the new head's |
| Engine.AdvanceSpecial | public/script.js:239-240 | the special timer advances by one below 399 and restarts at 0 exactly when the increment reaches 400, staying within 0..399 |
| Engine.ShiftByPeriod | public/script.js:239-240 | proof helper for `SpecialTimerFrom`: shifting a count by one 400-tick period keeps its remainder |
| Engine.SpecialTimerFrom | public/script.js:239-240 | from a timer value t in range, k advancing ticks give `(t + k) mod 400` |
| Engine.SpecialTimerCycles | public/script.js:239-240 | from 0, k advancing ticks give `k mod 400`: the timer wraps once every 400 ticks |
| Engine.KeyTurn | public/script.js:287-296 | ArrowUp or w names up, ArrowDown or s down, ArrowLeft or a left, ArrowRight or d right, and every other key none |
| Engine.Tick | public/script.js:215-248 | when not alive nothing changes; otherwise the pending direction is committed; a head on the body stops the game leaving snake, food and counts as they were; eating grows the snake by the new head, credits the drawn label and moves food to the placed cell; otherwise the snake keeps its length and is the new head followed by the old snake minus its tail |
| Engine.OnKey | public/script.js:286-298 | only `nextDir` can change; the new pending direction is the old one or perpendicular to the committed direction; before a game starts nothing changes |
| Engine.LoseHeart | public/script.js:177-194 | a no-op at 0 hearts; otherwise exactly one heart fewer, and `alive` is cleared exactly when the count reaches 0 |
| Engine.ClaimTokens | public/script.js:128-131 | the claim changes only `counts`, as `Ledger.Claim` says |
| Play.Step | public/script.js:96-114 | a key or a claim reply is always accepted by its handler; a tick of a started, living game with draws the game can make is accepted as `Tick`; a heart loss is accepted exactly once a game exists; a payment is accepted, starting a game, exactly before the first game (the pay button is then disabled and hidden for good); only ticks, heart losses and payments can be refused; no event changes the board |
| Play.SpawnFoodFits | public/script.js:227-233 | a cell the rejection loop picks for the grown snake is a valid food placement for the tick |
| Play.SpawnFoodStarts | public/script.js:198-201 | a cell the rejection loop picks for the one-cell start snake is a valid food placement for a new game |
| Play.PaymentStartsGame | public/script.js:105-108 | from page load a confirmed payment with a free food cell is accepted and leaves a started, living game |
| Play.PageLoadInv | public/script.js:54-60 | the page-load state (3 hearts, initial ledger, no game) satisfies the invariant |
| Play.StartGameInv | public/script.js:197-202 | starting a game establishes the game invariant |
| Play.TickInv | public/script.js:215-248 | a tick keeps the cells distinct and on the board, the food off the snake, the pending direction equal or perpendicular to the committed one, and the special timer in range |
| Play.TickHeadWraps | public/script.js:218-219 | after a tick the head is the old head plus the committed direction modulo each dimension, on the board |
| Play.TailCollision | public/script.js:221-225 | a new head on the current tail is a collision although the tail would have moved: the game stops and the snake stays |
| Play.EatCredits | public/script.js:227-233 | on a meal of an initial label the snake grows by exactly one, that label and the total rise by exactly 1, no other key changes, and the new food is off the new snake |
| Play.EatScenario | public/script.js:215-236 | on a 10x10 board a snake at (5,5) heading right with food at (6,5) becomes [(6,5),(5,5)] and the drawn label rises to 1 |
| Play.NoReversal | public/script.js:218 | the direction committed by a tick is the previous one or perpendicular to it, never its reverse |
| Play.KeyAlongAxisIgnored | public/script.js:289-295 | a key along the committed axis leaves the session unchanged |
| Play.KeyAcceptedIffPerpendicular | public/script.js:286-298 | a direction key becomes the pending direction exactly when it is perpendicular to the committed direction; otherwise the pending direction stays |
| Play.KeysKeepInv | public/script.js:286-298 | after any sequence of keys the invariant holds and the pending direction is not the reverse of the committed one |
| Play.LoseHeartInv | public/script.js:177-194 | losing a heart in a started game keeps hearts in `[0, 3]` and the game alive only while hearts remain |
| Play.HeartsRunDown | public/script.js:177-194 | from h hearts, n losses leave max(0, h-n) hearts and the game is alive exactly when it was alive and n < h, so losses after a collision keep it stopped |
| Play.HeartsAtZero | public/script.js:178 | with no heart left any number of further losses changes nothing |
| Play.StepInv | public/script.js:177-298 | every possible event keeps the invariant, including numeric, non-negative tallies for the initial keys |
| Play.RunInv | public/script.js:177-298 | every possible run of events keeps the invariant and the board |
| Play.SafeFromPageLoad | public/script.js:197-236 | from page load, after any run, hearts are in range, the game is alive only while a heart remains, DAK, CHOG and MON hold numbers and every numeric tally is non-negative, and any game's snake is distinct and on the board with the food off it |

## Left out

- Wallet connection, network switching and the payment transaction: calls into the wallet with no local logic; only "payment confirmed" is modelled, as `PayConfirmed`.
- The runtime configuration fetch and the claim HTTP request: network I/O; the server's verdict is a boolean input to `ClaimTokens`.
- `server.js`: the payout endpoint is not part of this model.
- Randomness: the drawn token index and the placed food cell are parameters, and food placement's draws are a given stream; no distribution is modelled.
- The special pickup: its 50% draw and 5-second timeout are not modelled; the timeout always calls `loseHeart` and is the external `HeartLost` event. Only `specialTimer`'s 0..399 cycle is in the model.
- Scheduling (`loop`, `setTimeout`), canvas drawing, floating text, the bar and heart images, the claim button, the game-over panel and the reload on restart: presentation and timing only. The pay button's disabling and hiding is modelled as payment being possible only before the first game.
- Engine.PayConfirmed: the model stops after `startGame`'s assignments (script.js:198-202); the `loop()` call at its end runs the first `update` at once, and the model treats that tick as the next `TickEvent`, so runs where a key press, a heart loss or a claim comes before that first tick are extra runs the page does not produce.
- `resize`: the board size is fixed for a session; the page can change it mid-game, which is not modelled.
- Ledger.CreditAllCounts: tallies are unbounded integers; the page's counts are JavaScript doubles, for which `+= 1` stops changing the value above 2^53, and that precision limit is not modelled.
- Ledger.Credit: the same unbounded-integer tally; a double's rounding above 2^53 is not modelled.
- Engine.Tick: requires a free cell for the food after a meal; when the grown snake covers the whole board `spawnFood` never returns, and that hang is not modelled.
- Engine.StartGame: requires a board of at least one column and row and a free cell besides the centre; on a smaller window the page computes with NaN or never places food.
