/**
 The board geometry of the snake game: a COLS x ROWS torus of integer cells,
 unit directions, and the head step with wrap-around.

 JavaScript's `%` truncates toward zero while Dafny's is Euclidean, so the
 remainder the game computes is written out as `JsRem`.
 */
module Grid {

  /** A cell `{x, y}`. */
  datatype Pos = Pos(x: int, y: int)

  /** A movement delta `{x, y}`; the game only ever stores unit deltas. */
  datatype Dir = Dir(dx: int, dy: int)

  /** The board size: `COLS` columns and `ROWS` rows. */
  datatype Board = Board(cols: int, rows: int)
  {
    /** A board the engine can run on: at least one cell in each direction. */
    predicate Valid() {
      cols >= 1 && rows >= 1
    }

    predicate Contains(p: Pos) {
      0 <= p.x < cols && 0 <= p.y < rows
    }
  }

  const Up: Dir := Dir(0, -1)
  const Down: Dir := Dir(0, 1)
  const Left: Dir := Dir(-1, 0)
  const Right: Dir := Dir(1, 0)

  /** One of the four deltas the game assigns to `dir` and `nextDir`. */
  predicate IsUnit(d: Dir) {
    d == Up || d == Down || d == Left || d == Right
  }

  function Reverse(d: Dir): Dir {
    Dir(-d.dx, -d.dy)
  }

  /** Two unit directions on different axes. */
  predicate Perpendicular(a: Dir, b: Dir) {
    IsUnit(a) && IsUnit(b) && (a.dx == 0 <==> b.dx != 0)
  }

  /** JavaScript's `a % n` for a positive divisor: the sign follows the dividend. */
  function JsRem(a: int, n: int): (r: int)
    requires n > 0
    ensures -n < r < n
    ensures a >= 0 ==> 0 <= r
    ensures a <= 0 ==> r <= 0
    ensures a >= 0 ==> r == a % n
  {
    if a >= 0 then a % n else -((-a) % n)
  }

  /** A coordinate at most one step off `[0, n)`, brought back onto the
      torus: one below the start is the last, one past the end is the first. */
  function Torus(a: int, n: int): int {
    if a < 0 then a + n else if a >= n then a - n else a
  }

  /** One coordinate of the new head: `(v + d + n) % n`. */
  function Wrap(v: int, d: int, n: int): (r: int)
    requires n > 0
    ensures 0 <= v < n && -1 <= d <= 1 ==> r == Torus(v + d, n)
  {
    WrapCases(v + d, n);
    JsRem(v + d + n, n)
  }

  /** `(a + n) % n` for `a` one step outside `[0, n)` at most. */
  lemma WrapCases(a: int, n: int)
    requires n > 0
    ensures -1 <= a <= n ==> (a + n) % n == Torus(a, n)
  {
    if a < -1 || a > n {
    } else if a < 0 {
      assert a + n == 0 * n + (n - 1);
    } else if a >= n {
      assert a + n == 2 * n + 0;
    } else {
      assert a + n == 1 * n + a;
    }
  }

  /** The cell the head moves to: `{(x+dx+COLS)%COLS, (y+dy+ROWS)%ROWS}`. */
  function NextHead(b: Board, head: Pos, d: Dir): (r: Pos)
    requires b.Valid()
    ensures b.Contains(head) && IsUnit(d) ==>
              b.Contains(r) && r == Pos(Torus(head.x + d.dx, b.cols), Torus(head.y + d.dy, b.rows))
  {
    Pos(Wrap(head.x, d.dx, b.cols), Wrap(head.y, d.dy, b.rows))
  }

  /** For an on-board coordinate and a step of at most one, the JavaScript
      expression is the true torus step: in range and congruent to `v + d`. */
  lemma WrapIsTorusStep(v: int, d: int, n: int)
    requires n > 0 && 0 <= v < n && -1 <= d <= 1
    ensures 0 <= Wrap(v, d, n) < n
    ensures Wrap(v, d, n) == (v + d) % n
    ensures v + d == -1 ==> Wrap(v, d, n) == n - 1
    ensures v + d == n ==> Wrap(v, d, n) == 0
    ensures 0 <= v + d < n ==> Wrap(v, d, n) == v + d
  {
    TorusIsMod(v + d, n);
  }

  /** The torus step is the Euclidean remainder for a coordinate at most one
      step off `[0, n)`. */
  lemma TorusIsMod(a: int, n: int)
    requires n > 0 && -1 <= a <= n
    ensures a % n == Torus(a, n)
  {
    if a < 0 {
      assert a == -1 * n + (n - 1);
    } else if a >= n {
      assert a == 1 * n + 0;
    } else {
      assert a == 0 * n + a;
    }
  }

  /** The new head lies on the board and is the old head plus the direction,
      taken modulo each board dimension. */
  lemma NextHeadOnBoard(b: Board, head: Pos, d: Dir)
    requires b.Valid() && b.Contains(head) && IsUnit(d)
    ensures b.Contains(NextHead(b, head, d))
    ensures NextHead(b, head, d) == Pos((head.x + d.dx) % b.cols, (head.y + d.dy) % b.rows)
  {
    WrapIsTorusStep(head.x, d.dx, b.cols);
    WrapIsTorusStep(head.y, d.dy, b.rows);
  }

  /** Moving left from the first column lands in the last column. */
  lemma LeftFromFirstColumn(b: Board, y: int)
    requires b.Valid() && 0 <= y < b.rows
    ensures NextHead(b, Pos(0, y), Left) == Pos(b.cols - 1, y)
  {
    WrapIsTorusStep(0, -1, b.cols);
    WrapIsTorusStep(y, 0, b.rows);
  }

  /** A direction perpendicular to a unit direction is never its reverse. */
  lemma PerpendicularIsNotReverse(a: Dir, b: Dir)
    requires Perpendicular(a, b)
    ensures a != Reverse(b) && a != b
  {
  }
}
