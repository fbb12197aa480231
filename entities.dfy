/** The entities of the shooter as values: constants, bullets, enemy
    positions, and the one-step rules for each (move, shoot, spawn, fall). */
module Entities {
  import opened Geometry

  const FieldWidth: real := 800.0

  const PlayerWidth: real := 50.0
  const PlayerHeight: real := 50.0
  const PlayerSpeed: real := 5.0
  const PlayerStartX: real := 400.0 - PlayerWidth / 2.0
  const PlayerStartY: real := 500.0

  const BulletWidth: real := 5.0
  const BulletHeight: real := 10.0
  const BulletSpeed: real := 7.0

  const EnemyWidth: real := 40.0
  const EnemyHeight: real := 40.0
  const EnemySpeed: real := 2.0

  /** The canvas height the enemy speed is calibrated for. */
  const ReferenceHeight: real := 600.0

  const PointsPerHit: int := 100
  const StartLives: int := 3

  /** Largest x at which the player ship still fits in the field. */
  const PlayerMaxX: real := FieldWidth - PlayerWidth

  datatype Direction = Left | Right

  /** A bullet: the plain record the player's `shoot` pushes. */
  datatype Bullet = Bullet(x: real, y: real, width: real, height: real, speed: real)
  {
    function Box(): Rect { Rect(x, y, width, height) }
  }

  /** The mutable part of an enemy (its size and speed are fixed). */
  datatype EnemyState = EnemyState(x: real, y: real)
  {
    function Box(): Rect { Rect(x, y, EnemyWidth, EnemyHeight) }
  }

  /** The signed horizontal step of one move. */
  function Step(d: Direction): real
  {
    if d == Left then -PlayerSpeed else PlayerSpeed
  }

  /** The new x of the ship after `move(d)`: the step is taken only when
      the ship stays within [0, PlayerMaxX]; otherwise it is rejected. */
  function MoveX(x: real, d: Direction): real
  {
    var newX := x + Step(d);
    if 0.0 <= newX <= PlayerMaxX then newX else x
  }

  /** A move keeps the ship in the field, shifts it by exactly one step or
      not at all, and shifts it exactly when the target is in bounds:
      there is no clamping to the edge. */
  lemma MoveStaysInField(x: real, d: Direction)
    requires 0.0 <= x <= PlayerMaxX
    ensures 0.0 <= MoveX(x, d) <= PlayerMaxX
    ensures MoveX(x, d) == x + Step(d) <==> 0.0 <= x + Step(d) <= PlayerMaxX
    ensures MoveX(x, d) != x + Step(d) ==> MoveX(x, d) == x
  {
  }

  /** The ship's x after the key for d was held for n ticks. */
  function HeldMoves(x: real, d: Direction, n: nat): real
    decreases n
  {
    if n == 0 then x else HeldMoves(MoveX(x, d), d, n - 1)
  }

  /** Holding "left" for n ticks moves the ship exactly 5n units left as
      long as that stays within the field. */
  lemma {:induction false} HeldLeft(x: real, n: nat)
    requires x <= PlayerMaxX
    requires PlayerSpeed * (n as real) <= x
    ensures HeldMoves(x, Left, n) == x - PlayerSpeed * (n as real)
  {
    if n > 0 {
      assert MoveX(x, Left) == x - PlayerSpeed;
      HeldLeft(x - PlayerSpeed, n - 1);
    }
  }

  /** From the start position, ten ticks of "left" end at x = 325. */
  lemma TenTicksLeftFromStart()
    ensures HeldMoves(PlayerStartX, Left, 10) == 325.0
  {
    HeldLeft(PlayerStartX, 10);
  }

  /** Near the left edge a move is refused rather than clamped to 0. */
  lemma MoveNearEdgeIsRejected()
    ensures MoveX(3.0, Left) == 3.0
  {
  }

  /** The bullet fired by a ship whose top-left corner is (x, y): it starts
      at the ship's horizontal centre and its top edge. */
  function Fired(x: real, y: real): Bullet
  {
    Bullet(x + PlayerWidth / 2.0, y, BulletWidth, BulletHeight, BulletSpeed)
  }

  /** One tick of bullet flight: it rises by its speed. */
  function Advance(b: Bullet): Bullet
  {
    b.(y := b.y - b.speed)
  }

  /** A freshly constructed enemy, given the value `random` in [0, 1) that
      Math.random() returned: it is fully inside the field horizontally and
      sits just above the top edge. */
  function Spawned(random: real): (e: EnemyState)
    requires 0.0 <= random < 1.0
    ensures 0.0 <= e.x < FieldWidth - EnemyWidth
    ensures e.x + EnemyWidth <= FieldWidth
    ensures e.y + EnemyHeight == 0.0
  {
    EnemyState(random * (FieldWidth - EnemyWidth), -EnemyHeight)
  }

  /** How far an enemy falls in one tick on a canvas of the given height. */
  function FallStep(canvasHeight: nat): real
  {
    EnemySpeed * (canvasHeight as real / ReferenceHeight)
  }

  /** The fall step is never negative, grows with the canvas, and is the
      enemy speed on the reference canvas. */
  lemma FallStepScales(h: nat, h': nat)
    ensures FallStep(h) >= 0.0
    ensures h <= h' ==> FallStep(h) <= FallStep(h')
    ensures h as real == ReferenceHeight ==> FallStep(h) == EnemySpeed
  {
  }

  /** One tick of enemy fall: only y changes. */
  function Fall(e: EnemyState, canvasHeight: nat): EnemyState
  {
    e.(y := e.y + FallStep(canvasHeight))
  }

  /** A fall keeps the column and never moves the enemy up. */
  lemma FallIsDownward(e: EnemyState, canvasHeight: nat)
    ensures Fall(e, canvasHeight).x == e.x
    ensures Fall(e, canvasHeight).y >= e.y
  {
    FallStepScales(canvasHeight, canvasHeight);
  }
}
