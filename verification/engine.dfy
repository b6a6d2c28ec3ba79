/**
 The game engine: the session record the page keeps in module-level
 variables, and its transitions — starting a game, one tick of `update`,
 a direction key, losing a heart, and the ledger reset after a claim.

 Random choices are parameters: `token` is the index of the drawn token and
 `spot` is the cell food placement settled on (see module Food).
 */
module Engine {
  import opened Wrappers
  import opened Grid
  import opened Food
  import L = Ledger

  const MaxHearts: int := 3

  /** `specialTimer` wraps back to 0 when it reaches this many ticks. */
  const SpecialPeriod: int := 400

  /** The variables `startGame` initialises. */
  datatype Game = Game(snake: seq<Pos>, dir: Dir, nextDir: Dir, food: Pos, specialTimer: int)

  /** The page's state: the board, `alive`, `hearts`, `counts`, and the game
      once the payment has started one. */
  datatype Session = Session(board: Board, alive: bool, hearts: int, counts: L.Ledger, game: Option<Game>)

  /** The state right after the page loads: no game, nothing collected. */
  function PageLoad(b: Board): (r: Session)
    ensures r.board == b && !r.alive && r.game.None? && r.hearts == MaxHearts
    ensures r.counts.Keys == L.InitialLabels && forall k :: k in r.counts ==> r.counts[k] == L.Num(0)
  {
    Session(b, false, MaxHearts, L.Initial, None)
  }

  /** The cell the single-segment snake starts on. */
  function Centre(b: Board): (r: Pos)
    requires b.Valid()
    ensures b.Contains(r)
    ensures r.x - 1 <= b.cols - 1 - r.x <= r.x && r.y - 1 <= b.rows - 1 - r.y <= r.y
  {
    Pos(b.cols / 2, b.rows / 2)
  }

  /** `startGame`: a one-cell snake in the centre heading right, food on a
      free cell, the special timer at zero. */
  function StartGame(b: Board, spot: Pos): (g: Game)
    requires b.Valid() && FreeCell(b, [Centre(b)], spot)
    ensures g.snake == [Centre(b)] && b.Contains(g.snake[0])
    ensures g.dir == Right && g.nextDir == Right
    ensures g.food == spot && g.food != g.snake[0] && g.specialTimer == 0
  {
    Game([Centre(b)], Right, Right, spot, 0)
  }

  /** The payment was confirmed: `alive := true` and a new game starts.
      Hearts and counts are page-level and carry over. */
  function PayConfirmed(s: Session, spot: Pos): (r: Session)
    requires s.board.Valid() && FreeCell(s.board, [Centre(s.board)], spot)
    ensures r.alive && r.game == Some(Game([Centre(s.board)], Right, Right, spot, 0))
    ensures r.hearts == s.hearts && r.counts == s.counts && r.board == s.board
  {
    s.(alive := true, game := Some(StartGame(s.board, spot)))
  }

  /** A session whose game can be stepped: a board and a non-empty snake. */
  predicate Running(s: Session) {
    s.board.Valid() && s.game.Some? && |s.game.value.snake| > 0
  }

  /** The head the next tick computes from the pending direction. */
  function NewHead(s: Session): Pos
    requires Running(s)
  {
    NextHead(s.board, s.game.value.snake[0], s.game.value.nextDir)
  }

  /** The next tick runs into the body; the current tail counts too. */
  predicate Collides(s: Session)
    requires Running(s)
    ensures Collides(s) <==>
              (exists i :: 0 <= i < |s.game.value.snake|
                 && s.game.value.snake[i].x == NewHead(s).x && s.game.value.snake[i].y == NewHead(s).y)
  {
    NewHead(s) in s.game.value.snake
  }

  /** The next tick moves the head onto the food. */
  predicate Eats(s: Session)
    requires Running(s)
  {
    s.alive && !Collides(s) && NewHead(s) == s.game.value.food
  }

  /** The cell placement settles on must be free of the grown snake. */
  predicate SpotFits(s: Session, spot: Pos)
    requires Running(s)
  {
    Eats(s) ==> FreeCell(s.board, [NewHead(s)] + s.game.value.snake, spot)
  }

  /** The special timer after one more tick: `++specialTimer >= 400` resets it. */
  function AdvanceSpecial(t: int): (r: int)
    ensures 0 <= t < SpecialPeriod ==> 0 <= r < SpecialPeriod
    ensures t + 1 < SpecialPeriod ==> r == t + 1
    ensures t + 1 >= SpecialPeriod ==> r == 0
  {
    if t + 1 >= SpecialPeriod then 0 else t + 1
  }

  /** One call of `update`. When not alive nothing changes (only the game-over
      panel is shown). Otherwise the pending direction is committed, and the
      new head either hits the body (the game stops, nothing else moves), lands
      on the food (the snake grows, the drawn label is credited, food moves to
      `spot`), or lands elsewhere (the snake slides, dropping its tail). */
  function Tick(s: Session, token: nat, spot: Pos): (r: Session)
    requires Running(s) && token < |L.TokenLabels| && SpotFits(s, spot)
    ensures r.board == s.board && r.hearts == s.hearts && r.game.Some?
    ensures !s.alive ==> r == s
    ensures s.alive ==> r.game.value.dir == s.game.value.nextDir
                        && r.game.value.nextDir == s.game.value.nextDir
    ensures s.alive && Collides(s) ==>
              !r.alive && r.counts == s.counts
              && r.game.value == s.game.value.(dir := s.game.value.nextDir)
    ensures s.alive && !Collides(s) ==>
              r.alive && |r.game.value.snake| > 0 && r.game.value.snake[0] == NewHead(s)
              && r.game.value.specialTimer == AdvanceSpecial(s.game.value.specialTimer)
    ensures Eats(s) ==>
              r.game.value.snake == [NewHead(s)] + s.game.value.snake
              && r.counts == L.Credit(s.counts, L.TokenLabels[token])
              && r.game.value.food == spot
    ensures s.alive && !Collides(s) && !Eats(s) ==>
              |r.game.value.snake| == |s.game.value.snake|
              && r.game.value.snake[1..] == s.game.value.snake[..|s.game.value.snake| - 1]
              && r.counts == s.counts && r.game.value.food == s.game.value.food
  {
    if !s.alive then s
    else
      var g := s.game.value;
      var committed := g.(dir := g.nextDir);
      var head := NewHead(s);
      if head in g.snake then
        s.(alive := false, game := Some(committed))
      else
        var body := [head] + g.snake;
        var timer := AdvanceSpecial(g.specialTimer);
        if head == g.food then
          s.(counts := L.Credit(s.counts, L.TokenLabels[token]),
             game := Some(committed.(snake := body, food := spot, specialTimer := timer)))
        else
          s.(game := Some(committed.(snake := body[..|body| - 1], specialTimer := timer)))
  }

  /** The direction a key names; any other key is ignored. */
  datatype Turn = TurnUp | TurnDown | TurnLeft | TurnRight | NoTurn

  function KeyTurn(key: string): (t: Turn)
    ensures t == TurnUp <==> key == "ArrowUp" || key == "w"
    ensures t == TurnDown <==> key == "ArrowDown" || key == "s"
    ensures t == TurnLeft <==> key == "ArrowLeft" || key == "a"
    ensures t == TurnRight <==> key == "ArrowRight" || key == "d"
  {
    if key == "ArrowUp" || key == "w" then TurnUp
    else if key == "ArrowDown" || key == "s" then TurnDown
    else if key == "ArrowLeft" || key == "a" then TurnLeft
    else if key == "ArrowRight" || key == "d" then TurnRight
    else NoTurn
  }

  /** The special timer after `k` ticks that advance it, from `t`. */
  function AdvanceSpecialTimes(t: int, k: nat): int
    decreases k
  {
    if k == 0 then t else AdvanceSpecialTimes(AdvanceSpecial(t), k - 1)
  }

  /** From 0, the special timer after `k` advancing ticks is `k mod 400`:
      it counts 0..399 and restarts, so it wraps once every 400 ticks. */
  lemma {:induction false} SpecialTimerCycles(k: nat)
    ensures AdvanceSpecialTimes(0, k) == k % SpecialPeriod
  {
    SpecialTimerFrom(0, k);
  }

  /** From `t` in range, `k` advances give `(t + k) mod 400`. */
  lemma {:induction false} SpecialTimerFrom(t: int, k: nat)
    requires 0 <= t < SpecialPeriod
    ensures AdvanceSpecialTimes(t, k) == (t + k) % SpecialPeriod
    decreases k
  {
    if k > 0 {
      var t' := AdvanceSpecial(t);
      SpecialTimerFrom(t', k - 1);
      assert (t' + (k - 1)) % SpecialPeriod == (t + k) % SpecialPeriod by {
        if t + 1 < SpecialPeriod {
          assert t' + (k - 1) == t + k;
        } else {
          assert t' + (k - 1) + SpecialPeriod == t + k;
          ShiftByPeriod(t' + (k - 1));
        }
      }
    }
  }

  /** Adding one period does not change the timer value a count maps to. */
  lemma ShiftByPeriod(x: int)
    ensures (x + SpecialPeriod) % SpecialPeriod == x % SpecialPeriod
  {
  }

  /** The direction a turn key names. */
  function TurnDir(t: Turn): (d: Dir)
    requires t != NoTurn
    ensures IsUnit(d)
  {
    match t
    case TurnUp => Up
    case TurnDown => Down
    case TurnLeft => Left
    case TurnRight => Right
  }

  /** The keydown handler: a vertical key is taken only while the committed
      direction is horizontal and vice versa; otherwise `nextDir` stays.
      Before the first game `dir` is undefined and the handler throws, so
      nothing changes. */
  function OnKey(s: Session, key: string): (r: Session)
    ensures r.board == s.board && r.alive == s.alive && r.hearts == s.hearts
    ensures r.counts == s.counts && r.game.Some? == s.game.Some?
    ensures r.game.Some? ==> r.game.value == s.game.value.(nextDir := r.game.value.nextDir)
    ensures r.game.Some? && IsUnit(s.game.value.dir) ==>
              r.game.value.nextDir == s.game.value.nextDir
              || Perpendicular(r.game.value.nextDir, s.game.value.dir)
  {
    match s.game
    case None => s
    case Some(g) =>
      var nd :=
        match KeyTurn(key)
        case TurnUp => if g.dir.dy == 0 then Up else g.nextDir
        case TurnDown => if g.dir.dy == 0 then Down else g.nextDir
        case TurnLeft => if g.dir.dx == 0 then Left else g.nextDir
        case TurnRight => if g.dir.dx == 0 then Right else g.nextDir
        case NoTurn => g.nextDir;
      s.(game := Some(g.(nextDir := nd)))
  }

  /** `loseHeart`: nothing at zero hearts; otherwise one heart fewer, and the
      game stops when the last one goes. */
  function LoseHeart(s: Session): (r: Session)
    ensures r.board == s.board && r.counts == s.counts && r.game == s.game
    ensures s.hearts <= 0 ==> r == s
    ensures s.hearts > 0 ==> r.hearts == s.hearts - 1
    ensures s.hearts > 0 ==> (r.alive <==> s.alive && r.hearts > 0)
  {
    if s.hearts <= 0 then s
    else
      var h := s.hearts - 1;
      s.(hearts := h, alive := if h <= 0 then false else s.alive)
  }

  /** The ledger part of `claimTokens`, with the server's verdict as input. */
  function ClaimTokens(s: Session, ok: bool): (r: Session)
    ensures r.counts == L.Claim(s.counts, ok)
    ensures r.(counts := s.counts) == s
  {
    s.(counts := L.Claim(s.counts, ok))
  }

  /** The snake's cells are pairwise distinct. */
  predicate Distinct(snake: seq<Pos>) {
    forall i, j :: 0 <= i < j < |snake| ==> snake[i] != snake[j]
  }

  /** What holds of a game between ticks. */
  predicate GameInv(b: Board, g: Game) {
    && |g.snake| > 0
    && (forall i :: 0 <= i < |g.snake| ==> b.Contains(g.snake[i]))
    && Distinct(g.snake)
    && FreeCell(b, g.snake, g.food)
    && IsUnit(g.dir)
    && (g.nextDir == g.dir || Perpendicular(g.nextDir, g.dir))
    && 0 <= g.specialTimer < SpecialPeriod
  }

  /** What holds of the page between events. */
  predicate Inv(s: Session) {
    && s.board.Valid()
    && 0 <= s.hearts <= MaxHearts
    && (s.alive ==> s.hearts > 0)
    && L.Numeric(s.counts)
    && (forall k :: k in s.counts && s.counts[k].Num? ==> s.counts[k].n >= 0)
    && (s.game.None? ==> !s.alive && s.hearts == MaxHearts)
    && (s.game.Some? ==> GameInv(s.board, s.game.value))
  }
}
