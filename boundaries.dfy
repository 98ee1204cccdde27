/**
 * The safe playable rectangle for ingredient tokens, in percentage coordinates,
 * with the clamp into it and the random placement inside it. `Math.random()`
 * draws are parameters, each a real in [0, 1).
 */
module Boundaries {
  import opened JsMath

  datatype Position = Position(x: real, y: real)

  const MinX: real := 15.0
  const MaxX: real := 85.0
  const MinY: real := 25.0
  const MaxY: real := 75.0

  predicate InBounds(p: Position)
  {
    MinX <= p.x <= MaxX && MinY <= p.y <= MaxY
  }

  function Min(a: real, b: real): real { if a <= b then a else b }

  function Max(a: real, b: real): real { if a >= b then a else b }

  /** `constrainPosition(x, y)`: each coordinate clamped into its range. */
  function ConstrainPosition(x: real, y: real): (p: Position)
    ensures InBounds(p)
    ensures InBounds(Position(x, y)) ==> p == Position(x, y)
    ensures x < MinX ==> p.x == MinX
    ensures x > MaxX ==> p.x == MaxX
    ensures y < MinY ==> p.y == MinY
    ensures y > MaxY ==> p.y == MaxY
  {
    Position(Max(MinX, Min(MaxX, x)), Max(MinY, Min(MaxY, y)))
  }

  /** Clamping a clamped point changes nothing. */
  lemma ConstrainIdempotent(x: real, y: real)
    ensures var p := ConstrainPosition(x, y); ConstrainPosition(p.x, p.y) == p
  {
  }

  /** The clamp is monotone in each coordinate. */
  lemma ConstrainMonotone(x1: real, y1: real, x2: real, y2: real)
    requires x1 <= x2 && y1 <= y2
    ensures ConstrainPosition(x1, y1).x <= ConstrainPosition(x2, y2).x
    ensures ConstrainPosition(x1, y1).y <= ConstrainPosition(x2, y2).y
  {
  }

  /** `getRandomSafePosition()`, given its two draws (x first, then y). */
  function RandomSafePosition(rx: real, ry: real): (p: Position)
    requires IsRandomDraw(rx) && IsRandomDraw(ry)
    ensures MinX <= p.x < MaxX && MinY <= p.y < MaxY
    ensures InBounds(p)
  {
    Position(rx * (MaxX - MinX) + MinX, ry * (MaxY - MinY) + MinY)
  }

  /**
   * `getRandomSafePositions(count)`: one position per loop turn, the i-th from the
   * i-th pair of draws. A count below one gives no positions.
   */
  method RandomSafePositions(count: int, draws: seq<(real, real)>) returns (positions: seq<Position>)
    requires count <= |draws|
    requires forall i :: 0 <= i < |draws| ==> IsRandomDraw(draws[i].0) && IsRandomDraw(draws[i].1)
    ensures |positions| == if count < 0 then 0 else count
    ensures forall i :: 0 <= i < |positions| ==> positions[i] == RandomSafePosition(draws[i].0, draws[i].1)
    ensures forall i :: 0 <= i < |positions| ==> InBounds(positions[i])
  {
    positions := [];
    var i := 0;
    while i < count
      invariant 0 <= i <= |draws|
      invariant count < 0 ==> i == 0
      invariant count >= 0 ==> i <= count
      invariant |positions| == i
      invariant forall j :: 0 <= j < i ==> positions[j] == RandomSafePosition(draws[j].0, draws[j].1)
    {
      positions := positions + [RandomSafePosition(draws[i].0, draws[i].1)];
      i := i + 1;
    }
  }
}
