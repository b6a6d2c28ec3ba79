/**
 Properties of the engine across events: the page-level invariant is kept by
 every transition, the committed direction never reverses, hearts run down
 to a single stop, and whole event sequences starting at page load keep the
 snake's cells distinct and the food off the snake.
 */
module Play {
  import opened Wrappers
  import opened Grid
  import opened Food
  import L = Ledger
  import opened Engine

  /** Something that happens to the page: a key press, a tick of the game
      loop (with its random draws), a special pickup timing out, a confirmed
      payment, or the claim request settling. */
  datatype Event =
    | KeyDown(key: string)
    | TickEvent(token: nat, spot: Pos)
    | HeartLost
    | PaymentConfirmed(spot: Pos)
    | ClaimSettled(ok: bool)

  /** The session after `e`, or `None` when `e` cannot happen in `s`: the loop
      ticks only a started, living game; a missed special pickup is armed
      only by a tick; the pay button is disabled and hidden for good once a
      payment succeeds, so only one game starts per page load; and the random
      draws must be ones the game can make. */
  function Step(s: Session, e: Event): (r: Option<Session>)
    ensures r.Some? ==> r.value.board == s.board
    ensures r.None? ==> e.TickEvent? || e.PaymentConfirmed? || e.HeartLost?
    ensures e.PaymentConfirmed? && s.game.Some? ==> r.None?
    ensures (e.PaymentConfirmed? && s.game.None? && s.board.Valid()
             && FreeCell(s.board, [Centre(s.board)], e.spot)) ==> r == Some(PayConfirmed(s, e.spot))
    ensures (e.TickEvent? && Running(s) && s.alive && e.token < |L.TokenLabels|
             && SpotFits(s, e.spot)) ==> r == Some(Tick(s, e.token, e.spot))
    ensures e.HeartLost? ==> (r.Some? <==> s.game.Some?)
    ensures e.HeartLost? && s.game.Some? ==> r == Some(LoseHeart(s))
    ensures e.KeyDown? ==> r == Some(OnKey(s, e.key))
    ensures e.ClaimSettled? ==> r == Some(ClaimTokens(s, e.ok))
  {
    match e
    case KeyDown(key) => Some(OnKey(s, key))
    case TickEvent(token, spot) =>
      if Running(s) && s.alive && token < |L.TokenLabels| && SpotFits(s, spot)
      then Some(Tick(s, token, spot)) else None
    case HeartLost => if s.game.Some? then Some(LoseHeart(s)) else None
    case PaymentConfirmed(spot) =>
      if s.game.None? && s.board.Valid() && FreeCell(s.board, [Centre(s.board)], spot)
      then Some(PayConfirmed(s, spot)) else None
    case ClaimSettled(ok) => Some(ClaimTokens(s, ok))
  }

  /** The events applied in order; `None` as soon as one cannot happen. */
  function Run(s: Session, es: seq<Event>): Option<Session>
    decreases |es|
  {
    if |es| == 0 then Some(s)
    else
      match Step(s, es[0])
      case None => None
      case Some(t) => Run(t, es[1..])
  }

  /** From page load a confirmed payment starts a living game. */
  lemma PaymentStartsGame(b: Board, spot: Pos)
    requires b.Valid() && FreeCell(b, [Centre(b)], spot)
    ensures Run(PageLoad(b), [PaymentConfirmed(spot)]).Some?
    ensures Run(PageLoad(b), [PaymentConfirmed(spot)]).value.game.Some?
    ensures Run(PageLoad(b), [PaymentConfirmed(spot)]).value.alive
  {
  }

  lemma PageLoadInv(b: Board)
    requires b.Valid()
    ensures Inv(PageLoad(b))
  {
  }

  /** A cell chosen by the rejection loop for the grown snake is one a tick
      can place food on. */
  lemma SpawnFoodFits(s: Session, draws: seq<Pos>)
    requires Running(s) && forall i :: 0 <= i < |draws| ==> s.board.Contains(draws[i])
    requires SpawnFood(s.board, [NewHead(s)] + s.game.value.snake, draws).Some?
    ensures SpotFits(s, SpawnFood(s.board, [NewHead(s)] + s.game.value.snake, draws).value)
  {
  }

  /** A cell chosen by the rejection loop for the one-cell start snake is
      one a game can start with. */
  lemma SpawnFoodStarts(b: Board, draws: seq<Pos>)
    requires b.Valid() && forall i :: 0 <= i < |draws| ==> b.Contains(draws[i])
    requires SpawnFood(b, [Centre(b)], draws).Some?
    ensures FreeCell(b, [Centre(b)], SpawnFood(b, [Centre(b)], draws).value)
  {
  }

  /** A started game satisfies the game invariant. */
  lemma StartGameInv(s: Session, spot: Pos)
    requires Inv(s) && s.game.None? && FreeCell(s.board, [Centre(s.board)], spot)
    ensures Inv(PayConfirmed(s, spot))
  {
  }

  /** One tick keeps the invariant: the new head is on the board, the body
      stays distinct, the food stays off it, and the committed direction is
      the pending one. */
  lemma TickInv(s: Session, token: nat, spot: Pos)
    requires Inv(s) && s.game.Some? && token < |L.TokenLabels| && SpotFits(s, spot)
    ensures Inv(Tick(s, token, spot))
  {
  }

  /** The head after a tick is the old head plus the committed direction,
      modulo each board dimension, and lies on the board. */
  lemma TickHeadWraps(s: Session, token: nat, spot: Pos)
    requires Inv(s) && s.game.Some? && s.alive && !Collides(s)
    requires token < |L.TokenLabels| && SpotFits(s, spot)
    ensures var h := s.game.value.snake[0];
            var d := s.game.value.nextDir;
            Tick(s, token, spot).game.value.snake[0]
              == Pos((h.x + d.dx) % s.board.cols, (h.y + d.dy) % s.board.rows)
    ensures s.board.Contains(Tick(s, token, spot).game.value.snake[0])
  {
    NextHeadOnBoard(s.board, s.game.value.snake[0], s.game.value.nextDir);
  }

  /** Running into the current tail is a collision too, although the tail
      would have moved away this tick: the game stops and the snake stays. */
  lemma TailCollision(s: Session, token: nat, spot: Pos)
    requires Running(s) && s.alive && token < |L.TokenLabels| && SpotFits(s, spot)
    requires NewHead(s) == s.game.value.snake[|s.game.value.snake| - 1]
    ensures !Tick(s, token, spot).alive
    ensures Tick(s, token, spot).game.value.snake == s.game.value.snake
  {
    assert NewHead(s) in s.game.value.snake;
  }

  /** Eating: the snake grows by one, the drawn initial label and the total
      rise by exactly one, no other key changes, and the food moves to a
      cell off the new snake. */
  lemma EatCredits(s: Session, token: nat, spot: Pos)
    requires Inv(s) && s.game.Some? && Eats(s) && token < |L.TokenLabels| && SpotFits(s, spot)
    requires L.Numeric(s.counts) && L.TokenLabels[token] in L.InitialLabels
    ensures var r := Tick(s, token, spot);
            && |r.game.value.snake| == |s.game.value.snake| + 1
            && L.Numeric(r.counts)
            && L.Total(r.counts) == L.Total(s.counts) + 1
            && r.counts.Keys == s.counts.Keys
            && (forall k :: k in s.counts && k != L.TokenLabels[token] ==> r.counts[k] == s.counts[k])
            && r.game.value.food !in r.game.value.snake
  {
    L.CreditInitialLabel(s.counts, L.TokenLabels[token]);
  }

  /** A 10 x 10 board, a one-cell snake at (5, 5) heading right and food at
      (6, 5): one tick puts the head on (6, 5), the snake has two cells and
      the drawn label (CHOG here) is credited with 1. */
  lemma EatScenario()
    ensures var spot := Pos(0, 0);
            var s := Session(Board(10, 10), true, MaxHearts, L.Initial,
                             Some(Game([Pos(5, 5)], Right, Right, Pos(6, 5), 0)));
            && Eats(s) && SpotFits(s, spot)
            && Tick(s, 1, spot).game.value.snake == [Pos(6, 5), Pos(5, 5)]
            && Tick(s, 1, spot).counts["CHOG"] == L.Num(1)
            && Tick(s, 1, spot).counts["DAK"] == L.Num(0)
  {
    var s := Session(Board(10, 10), true, MaxHearts, L.Initial,
                     Some(Game([Pos(5, 5)], Right, Right, Pos(6, 5), 0)));
    WrapIsTorusStep(5, 1, 10);
    WrapIsTorusStep(5, 0, 10);
    assert NewHead(s) == Pos(6, 5);
  }

  /** The committed direction never turns back on itself: after a tick it is
      the previous direction or perpendicular to it. */
  lemma NoReversal(s: Session, token: nat, spot: Pos)
    requires Inv(s) && s.game.Some? && token < |L.TokenLabels| && SpotFits(s, spot)
    ensures var d := Tick(s, token, spot).game.value.dir;
            d == s.game.value.dir || Perpendicular(d, s.game.value.dir)
    ensures Tick(s, token, spot).game.value.dir != Reverse(s.game.value.dir)
  {
    var g := s.game.value;
    if g.nextDir != g.dir {
      PerpendicularIsNotReverse(g.nextDir, g.dir);
    }
  }

  /** A key along the committed axis leaves `nextDir` as it was. */
  lemma KeyAlongAxisIgnored(s: Session, key: string)
    requires Inv(s) && s.game.Some?
    requires var t := KeyTurn(key);
             ((t == TurnUp || t == TurnDown) && s.game.value.dir.dy != 0)
             || ((t == TurnLeft || t == TurnRight) && s.game.value.dir.dx != 0)
    ensures OnKey(s, key) == s
  {
  }

  /** A direction key is taken exactly when it is perpendicular to the
      committed direction; otherwise the pending direction stays. */
  lemma KeyAcceptedIffPerpendicular(s: Session, key: string)
    requires Inv(s) && s.game.Some? && KeyTurn(key) != NoTurn
    ensures var g := s.game.value;
            var d := TurnDir(KeyTurn(key));
            OnKey(s, key).game.value.nextDir == if Perpendicular(d, g.dir) then d else g.nextDir
  {
  }

  /** The key handler applied to each key in turn. */
  function OnKeys(s: Session, keys: seq<string>): Session
    decreases |keys|
  {
    if |keys| == 0 then s else OnKeys(OnKey(s, keys[0]), keys[1..])
  }

  /** After any sequence of keys the pending direction is the committed one
      or perpendicular to it, so it is never its reverse. */
  lemma {:induction false} KeysKeepInv(s: Session, keys: seq<string>)
    requires Inv(s)
    ensures Inv(OnKeys(s, keys))
    ensures OnKeys(s, keys).game.Some? ==>
              OnKeys(s, keys).game.value.nextDir != Reverse(OnKeys(s, keys).game.value.dir)
    decreases |keys|
  {
    if |keys| == 0 {
      if s.game.Some? && s.game.value.nextDir != s.game.value.dir {
        PerpendicularIsNotReverse(s.game.value.nextDir, s.game.value.dir);
      }
    } else {
      KeysKeepInv(OnKey(s, keys[0]), keys[1..]);
    }
  }

  /** A missed pickup, which only a started game can arm, keeps hearts
      within `[0, MaxHearts]` and the game alive only while hearts remain. */
  lemma LoseHeartInv(s: Session)
    requires Inv(s) && s.game.Some?
    ensures Inv(LoseHeart(s))
    ensures 0 <= LoseHeart(s).hearts <= MaxHearts
  {
  }

  /** `loseHeart` applied `n` times. */
  function LoseHearts(s: Session, n: nat): Session
    decreases n
  {
    if n == 0 then s else LoseHearts(LoseHeart(s), n - 1)
  }

  /** From `h` hearts, `n` losses leave `max(0, h - n)` hearts, and the game
      is alive exactly when it was and some heart remains; a timeout armed
      before a collision still costs a heart after it. */
  lemma {:induction false} HeartsRunDown(s: Session, n: nat)
    requires 0 < s.hearts <= MaxHearts
    ensures LoseHearts(s, n).hearts == if n < s.hearts then s.hearts - n else 0
    ensures LoseHearts(s, n).alive <==> s.alive && n < s.hearts
    ensures LoseHearts(s, n).game == s.game && LoseHearts(s, n).counts == s.counts
    decreases n
  {
    if n > 0 {
      var t := LoseHeart(s);
      if t.hearts > 0 {
        HeartsRunDown(t, n - 1);
      } else {
        HeartsAtZero(t, n - 1);
      }
    }
  }

  /** With no heart left, further losses change nothing. */
  lemma {:induction false} HeartsAtZero(s: Session, n: nat)
    requires s.hearts <= 0
    ensures LoseHearts(s, n) == s
    decreases n
  {
    if n > 0 {
      HeartsAtZero(LoseHeart(s), n - 1);
    }
  }

  /** Every event keeps the invariant. */
  lemma StepInv(s: Session, e: Event)
    requires Inv(s) && Step(s, e).Some?
    ensures Inv(Step(s, e).value)
  {
    match e
    case KeyDown(key) => KeysKeepInv(s, [key]);
    case TickEvent(token, spot) => TickInv(s, token, spot);
    case HeartLost => LoseHeartInv(s);
    case PaymentConfirmed(spot) => StartGameInv(s, spot);
    case ClaimSettled(ok) =>
  }

  /** Every run of events keeps the invariant. */
  lemma {:induction false} RunInv(s: Session, es: seq<Event>)
    requires Inv(s) && Run(s, es).Some?
    ensures Inv(Run(s, es).value) && Run(s, es).value.board == s.board
    decreases |es|
  {
    if |es| > 0 {
      StepInv(s, es[0]);
      RunInv(Step(s, es[0]).value, es[1..]);
    }
  }

  /** From page load, whatever happens, the snake's cells stay distinct and
      on the board, the food stays off the snake, and hearts stay in range. */
  lemma SafeFromPageLoad(b: Board, es: seq<Event>)
    requires b.Valid() && Run(PageLoad(b), es).Some?
    ensures var t := Run(PageLoad(b), es).value;
            && 0 <= t.hearts <= MaxHearts
            && (t.alive ==> t.hearts > 0)
            && L.Numeric(t.counts)
            && (forall k :: k in t.counts && t.counts[k].Num? ==> t.counts[k].n >= 0)
            && (t.game.Some? ==>
                  Distinct(t.game.value.snake)
                  && t.game.value.food !in t.game.value.snake
                  && forall i :: 0 <= i < |t.game.value.snake| ==> b.Contains(t.game.value.snake[i]))
  {
    RunInv(PageLoad(b), es);
  }
}
