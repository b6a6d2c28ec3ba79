/**
 Food placement. The game draws random cells until one is off the snake
 (a do-while with rejection). Randomness is not modelled: the draws are a
 caller-supplied stream of on-board cells, and placement takes the first
 draw that is free. `None` means the loop had not stopped within the stream.
 */
module Food {
  import opened Wrappers
  import opened Grid

  /** A cell the food may occupy: on the board and off the body. */
  predicate FreeCell(b: Board, body: seq<Pos>, p: Pos) {
    b.Contains(p) && p !in body
  }

  /** The cell `spawnFood` settles on for the given stream of draws. */
  function SpawnFood(b: Board, body: seq<Pos>, draws: seq<Pos>): (r: Option<Pos>)
    requires forall i :: 0 <= i < |draws| ==> b.Contains(draws[i])
    ensures r.Some? ==> FreeCell(b, body, r.value)
    ensures r.Some? <==> exists i :: 0 <= i < |draws| && draws[i] !in body
    ensures r.Some? ==> exists i :: 0 <= i < |draws| && draws[i] == r.value
                          && forall j :: 0 <= j < i ==> draws[j] in body
    decreases |draws|
  {
    if |draws| == 0 then None
    else if draws[0] !in body then Some(draws[0])
    else
      assert forall i :: 0 < i < |draws| ==> draws[i] == draws[1..][i - 1];
      SpawnFood(b, body, draws[1..])
  }

  /** The same loop written as the do-while it is: it keeps drawing while
      the drawn cell is on the body. */
  method SpawnFoodLoop(b: Board, body: seq<Pos>, draws: seq<Pos>) returns (r: Option<Pos>)
    requires forall i :: 0 <= i < |draws| ==> b.Contains(draws[i])
    ensures r == SpawnFood(b, body, draws)
  {
    var i := 0;
    while i < |draws| && draws[i] in body
      invariant 0 <= i <= |draws|
      invariant SpawnFood(b, body, draws[i..]) == SpawnFood(b, body, draws)
      decreases |draws| - i
    {
      assert draws[i..][1..] == draws[i + 1..];
      i := i + 1;
    }
    if i < |draws| {
      r := Some(draws[i]);
    } else {
      r := None;
    }
  }
}
