/** The whole game session as a value and the operations on it: one tick of
    `update`, firing, spawning an enemy, and the start / restart state. */
module Session {
  import opened Geometry
  import opened Entities
  import opened Passes

  datatype PlayerState = PlayerState(x: real, y: real, bullets: seq<Bullet>)

  datatype GameState = GameState(
    player: PlayerState,
    enemies: seq<EnemyState>,
    score: int,
    lives: int,
    isGameOver: bool)

  /** The session as the game starts it and as `restartGame` resets it. */
  function Initial(): GameState
  {
    GameState(PlayerState(PlayerStartX, PlayerStartY, []), [], 0, StartLives, false)
  }

  /** The ship's x after this tick's arrow keys: left first, then right. */
  function Steer(x: real, left: bool, right: bool): real
  {
    var x1 := if left then MoveX(x, Left) else x;
    if right then MoveX(x1, Right) else x1
  }

  /** The arrow-key part of `update`: the ship moves. */
  function SteerPhase(s: GameState, left: bool, right: bool): GameState
  {
    s.(player := s.player.(x := Steer(s.player.x, left, right)))
  }

  /** The bullet loop of `update`. */
  function BulletPhase(s: GameState): GameState
  {
    s.(player := s.player.(bullets := BulletPass(s.player.bullets)))
  }

  /** The enemy loop of `update`: escaped enemies cost a life each, and the
      game ends once an escape takes lives to 0 or below. */
  function EnemyPhase(s: GameState, canvasHeight: nat): GameState
  {
    var sweep := EnemyPass(s.enemies, canvasHeight);
    var lives := s.lives - sweep.escaped;
    s.(enemies := sweep.kept, lives := lives,
       isGameOver := s.isGameOver || (sweep.escaped > 0 && lives <= 0))
  }

  /** The session after collision tests that left the lists of `o` and
      found `o.hits` overlaps, 100 points each. */
  function Scored(s: GameState, o: Outcome): GameState
  {
    s.(player := s.player.(bullets := o.bullets), enemies := o.enemies,
       score := s.score + PointsPerHit * o.hits)
  }

  /** `checkCollisions`. */
  function CollisionPhase(s: GameState): GameState
  {
    Scored(s, Collisions(s.player.bullets, s.enemies))
  }

  /** Scoring two runs of collision tests one after the other is scoring
      the second run's lists with the hits of both. */
  lemma ScoredTwice(s: GameState, o1: Outcome, o2: Outcome)
    ensures Scored(Scored(s, o1), o2) == Scored(s, o2.(hits := o1.hits + o2.hits))
  {
  }

  /** One call of the inner callback of `checkCollisions`, scored into the
      session. */
  function HitTested(t: GameState, b: Bullet, i: nat, j: nat): GameState
  {
    Scored(t, HitStep(b, i, t.player.bullets, t.enemies, j))
  }

  /** The session that the inner loop of `checkCollisions` reaches from t
      when it resumes at enemy index j (bullet b taken at index i, m enemy
      indices in all). */
  function HitsLeft(t: GameState, b: Bullet, i: nat, j: nat, m: nat): GameState
  {
    Scored(t, HitPass(b, i, t.player.bullets, t.enemies, j, m))
  }

  /** One test of the inner loop, scored into the session, followed by the
      rest of the inner loop. */
  lemma HitsLeftStep(t: GameState, b: Bullet, i: nat, j: nat, m: nat)
    requires j < m
    ensures HitsLeft(t, b, i, j, m) == HitsLeft(HitTested(t, b, i, j), b, i, j + 1, m)
  {
    var o := HitStep(b, i, t.player.bullets, t.enemies, j);
    HitPassUnfold(b, i, t.player.bullets, t.enemies, j, m);
    ScoredTwice(t, o, HitPass(b, i, o.bullets, o.enemies, j + 1, m));
  }

  /** The inner loop past its last index changes nothing. */
  lemma HitsLeftDone(t: GameState, b: Bullet, i: nat, m: nat)
    ensures HitsLeft(t, b, i, m, m) == t
  {
  }

  /** The session that the outer loop of `checkCollisions` reaches from t
      when it resumes at bullet index i (n bullet indices in all). */
  function CollisionsLeft(t: GameState, i: nat, n: nat): GameState
  {
    Scored(t, CollisionPass(t.player.bullets, t.enemies, i, n))
  }

  /** One callback of the outer loop followed by the rest of the outer
      loop; an index past the end of the bullet list does nothing. */
  lemma CollisionsLeftStep(t: GameState, i: nat, n: nat)
    requires i < n
    ensures i < |t.player.bullets| ==>
      CollisionsLeft(t, i, n) == CollisionsLeft(HitsLeft(t, t.player.bullets[i], i, 0, |t.enemies|), i + 1, n)
    ensures |t.player.bullets| <= i ==> CollisionsLeft(t, i, n) == CollisionsLeft(t, i + 1, n)
  {
    CollisionPassUnfold(t.player.bullets, t.enemies, i, n);
    if i < |t.player.bullets| {
      var r1 := HitPass(t.player.bullets[i], i, t.player.bullets, t.enemies, 0, |t.enemies|);
      ScoredTwice(t, r1, CollisionPass(r1.bullets, r1.enemies, i + 1, n));
    }
  }

  /** The outer loop starts at `checkCollisions` and, past its last index,
      changes nothing. */
  lemma CollisionsLeftEnds(t: GameState, n: nat)
    ensures CollisionsLeft(t, 0, |t.player.bullets|) == CollisionPhase(t)
    ensures CollisionsLeft(t, n, n) == t
  {
  }

  /** One callback of the bullet loop, at index i. */
  function BulletVisited(s: GameState, i: nat): GameState
    requires i < |s.player.bullets|
  {
    s.(player := s.player.(bullets := AfterBulletVisit(s.player.bullets, i)))
  }

  /** One callback of the enemy loop, at index i: an escape costs a life,
      and ends the game if lives are then at or below 0. */
  function EnemyVisited(s: GameState, i: nat, canvasHeight: nat): GameState
    requires i < |s.enemies|
  {
    var lost := Escapes(s.enemies[i], canvasHeight);
    var lives := if lost then s.lives - 1 else s.lives;
    s.(enemies := AfterEnemyVisit(s.enemies, i, canvasHeight), lives := lives,
       isGameOver := s.isGameOver || (lost && lives <= 0))
  }

  /** The session part way through the enemy loop of `update`, once the
      cursor `c` has been reached from the start state `s`. */
  function EnemyPhaseAt(s: GameState, c: EnemyCursor): GameState
  {
    var lives := s.lives - c.escaped;
    s.(enemies := c.kept + EnemyTail(s, c), lives := lives,
       isGameOver := s.isGameOver || (c.escaped > 0 && lives <= 0))
  }

  /** The enemies the loop has not reached yet. */
  function EnemyTail(s: GameState, c: EnemyCursor): seq<EnemyState>
  {
    if c.next <= |s.enemies| then s.enemies[c.next..] else []
  }

  /** One callback of the enemy loop moves the session from one cursor to
      the next. */
  lemma EnemyPhaseAtStep(s: GameState, canvasHeight: nat, c: EnemyCursor)
    requires c.next < |s.enemies| && OnTheWay(s.enemies, canvasHeight, c)
    ensures |c.kept| < |EnemyPhaseAt(s, c).enemies|
    ensures var d := EnemyVisit(s.enemies, canvasHeight, c);
      OnTheWay(s.enemies, canvasHeight, d) &&
      EnemyVisited(EnemyPhaseAt(s, c), |c.kept|, canvasHeight) == EnemyPhaseAt(s, d) &&
      |d.kept| <= |c.kept| + 1 &&
      (d.next < |s.enemies| ==> |d.kept| == |c.kept| + 1)
  {
    EnemyVisitStep(s.enemies, canvasHeight, c);
  }

  /** The loop starts at the start state and, once every index is past,
      ends at the enemy phase. */
  lemma EnemyPhaseAtEnds(s: GameState, canvasHeight: nat, c: EnemyCursor)
    requires OnTheWay(s.enemies, canvasHeight, c)
    ensures EnemyPhaseAt(s, EnemyCursor(0, [], 0)) == s
    ensures c.next == |s.enemies| ==> EnemyPhaseAt(s, c) == EnemyPhase(s, canvasHeight)
  {
    assert s.enemies[0..] == s.enemies;
    assert s.enemies[|s.enemies|..] == [];
  }

  /** One call of `update` given the two arrow-key states and the canvas
      height: nothing happens after game over; otherwise the ship moves, the
      bullets and then the enemies advance, and finally the collision pass
      removes bullets and enemies and scores. */
  function Tick(s: GameState, left: bool, right: bool, canvasHeight: nat): GameState
  {
    if s.isGameOver then s
    else CollisionPhase(EnemyPhase(BulletPhase(SteerPhase(s, left, right)), canvasHeight))
  }

  /** The player's `shoot`: one bullet appended at the ship's position. */
  function Shoot(s: GameState): GameState
  {
    s.(player := s.player.(bullets := s.player.bullets + [Fired(s.player.x, s.player.y)]))
  }

  /** The touch auto-fire callback: it shoots only while the game runs. */
  function AutoFire(s: GameState): GameState
  {
    if s.isGameOver then s else Shoot(s)
  }

  /** The enemy-spawn timer callback: one new enemy is appended, also after
      game over. */
  function Spawn(s: GameState, random: real): GameState
    requires 0.0 <= random < 1.0
  {
    s.(enemies := s.enemies + [Spawned(random)])
  }

  /** What every reachable session satisfies: the ship is in the field on
      its row, no bullet is above the top edge, the score is a non-negative
      multiple of 100, lives never exceed the start value, and the game is
      over exactly when lives are at or below 0. */
  ghost predicate Consistent(s: GameState)
  {
    0.0 <= s.player.x <= PlayerMaxX && s.player.y == PlayerStartY &&
    (forall b :: b in s.player.bullets ==> b.y >= 0.0) &&
    0 <= s.score && s.score % PointsPerHit == 0 &&
    s.lives <= StartLives &&
    (s.isGameOver <==> s.lives <= 0)
  }

  /** Adding whole hits keeps a score a multiple of the points per hit. */
  lemma ScoreArithmetic(score: int, hits: nat)
    ensures (score + PointsPerHit * hits) % PointsPerHit == score % PointsPerHit
    ensures (score + PointsPerHit * hits - score) / PointsPerHit == hits
  {
  }

  /** A score raised by whole hits has not dropped, and the rise counts the
      hits. */
  lemma HitArithmetic(score: int, raised: int, hits: nat)
    requires raised == score + PointsPerHit * hits
    ensures raised >= score
    ensures (raised - score) % PointsPerHit == 0
    ensures (raised - score) / PointsPerHit == hits
  {
    ScoreArithmetic(score, hits);
  }

  lemma InitialConsistent()
    ensures Consistent(Initial())
  {
  }

  /** `update` is a no-op after game over. */
  lemma TickFrozenAfterGameOver(s: GameState, left: bool, right: bool, canvasHeight: nat)
    requires s.isGameOver
    ensures Tick(s, left, right, canvasHeight) == s
  {
  }

  /** Each part of a tick keeps the session consistent. */
  lemma SteerPhasePreservesConsistent(s: GameState, left: bool, right: bool)
    requires Consistent(s)
    ensures Consistent(SteerPhase(s, left, right))
  {
    MoveStaysInField(s.player.x, Left);
    MoveStaysInField(if left then MoveX(s.player.x, Left) else s.player.x, Right);
  }

  lemma BulletPhasePreservesConsistent(s: GameState)
    requires Consistent(s)
    ensures Consistent(BulletPhase(s))
  {
    BulletPassKeepsOnField(s.player.bullets);
  }

  lemma EnemyPhasePreservesConsistent(s: GameState, canvasHeight: nat)
    requires Consistent(s)
    ensures Consistent(EnemyPhase(s, canvasHeight))
    ensures EnemyPhase(s, canvasHeight).lives <= s.lives
  {
  }

  /** Bullets taken from a list with none above the top edge are not above
      it either. */
  lemma SubmultisetOnField(bs: seq<Bullet>, kept: seq<Bullet>)
    requires forall b :: b in bs ==> b.y >= 0.0
    requires multiset(kept) <= multiset(bs)
    ensures forall b :: b in kept ==> b.y >= 0.0
  {
    forall b | b in kept ensures b.y >= 0.0 {
      assert b in multiset(kept);
    }
  }

  lemma CollisionPhasePreservesConsistent(s: GameState)
    requires Consistent(s)
    ensures Consistent(CollisionPhase(s))
    ensures multiset(CollisionPhase(s).player.bullets) <= multiset(s.player.bullets)
    ensures multiset(CollisionPhase(s).enemies) <= multiset(s.enemies)
  {
    var hit := Collisions(s.player.bullets, s.enemies);
    CollisionsAccounting(s.player.bullets, s.enemies);
    ScoreArithmetic(s.score, hit.hits);
    SubmultisetOnField(s.player.bullets, hit.bullets);
  }

  /** A whole tick keeps the session consistent. */
  lemma TickPreservesConsistent(s: GameState, left: bool, right: bool, canvasHeight: nat)
    requires Consistent(s)
    ensures Consistent(Tick(s, left, right, canvasHeight))
  {
    if !s.isGameOver {
      var s1 := SteerPhase(s, left, right);
      SteerPhasePreservesConsistent(s, left, right);
      var s2 := BulletPhase(s1);
      BulletPhasePreservesConsistent(s1);
      var s3 := EnemyPhase(s2, canvasHeight);
      EnemyPhasePreservesConsistent(s2, canvasHeight);
      CollisionPhasePreservesConsistent(s3);
    }
  }

  lemma ShootPreservesConsistent(s: GameState)
    requires Consistent(s)
    ensures Consistent(Shoot(s)) && Consistent(AutoFire(s))
  {
  }

  lemma SpawnPreservesConsistent(s: GameState, random: real)
    requires Consistent(s) && 0.0 <= random < 1.0
    ensures Consistent(Spawn(s, random))
  {
  }

  /** Lives drop by exactly the number of enemies that escaped past the
      bottom, the game ends exactly when this tick took lives to 0 or
      below, and lives are not floored at 0. */
  lemma TickLives(s: GameState, left: bool, right: bool, canvasHeight: nat)
    requires !s.isGameOver
    ensures var t := Tick(s, left, right, canvasHeight);
      t.lives == s.lives - EnemyPass(s.enemies, canvasHeight).escaped &&
      t.lives <= s.lives &&
      (t.isGameOver <==> t.lives < s.lives && t.lives <= 0)
  {
  }

  /** Every enemy that leaves the list in a tick either cost a life or was
      shot for 100 points, and the score never decreases. */
  lemma TickAccounting(s: GameState, left: bool, right: bool, canvasHeight: nat)
    ensures var t := Tick(s, left, right, canvasHeight);
      t.score >= s.score &&
      (t.score - s.score) % PointsPerHit == 0 &&
      |s.enemies| - |t.enemies| == (s.lives - t.lives) + (t.score - s.score) / PointsPerHit
  {
    if !s.isGameOver {
      var s3 := EnemyPhase(BulletPhase(SteerPhase(s, left, right)), canvasHeight);
      var hit := Collisions(s3.player.bullets, s3.enemies);
      var t := Tick(s, left, right, canvasHeight);
      assert t == Scored(s3, hit);
      EnemyPassCount(s.enemies, canvasHeight);
      CollisionsAccounting(s3.player.bullets, s3.enemies);
      HitArithmetic(s.score, t.score, hit.hits);
    }
  }

  /** One life left and three enemies, the first and last about to cross
      the bottom: the first escapes (lives 0, game over), the second shifts
      into its slot and is skipped, the third escapes too, and lives end at
      -1. */
  lemma LivesGoBelowZero()
    ensures var s := GameState(PlayerState(PlayerStartX, PlayerStartY, []),
                               [EnemyState(0.0, 599.0), EnemyState(0.0, 100.0), EnemyState(0.0, 599.0)],
                               0, 1, false);
      var t := Tick(s, false, false, 600);
      t.lives == -1 && t.isGameOver && t.enemies == [EnemyState(0.0, 100.0)]
  {
    var es := [EnemyState(0.0, 599.0), EnemyState(0.0, 100.0), EnemyState(0.0, 599.0)];
    assert es[2..] == [EnemyState(0.0, 599.0)];
    assert EnemyPass(es, 600) == Sweep([EnemyState(0.0, 100.0)], 2);
  }
}
