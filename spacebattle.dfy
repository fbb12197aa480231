/** The game's objects, `Player`, `Enemy` and `Game`, whose methods update
    their fields in place. Each method is proved against the value model:
    `Game.Update` performs exactly one `Session.Tick` on the game's
    snapshot. */
module SpaceBattle {
  import opened Geometry
  import opened Entities
  import opened Passes
  import opened Session

  class Player {
    const width: real := PlayerWidth
    const height: real := PlayerHeight
    const speed: real := PlayerSpeed
    var x: real
    var y: real
    var bullets: seq<Bullet>

    /** A ship centred horizontally on row 500, with no bullets. */
    constructor ()
      ensures State() == PlayerState(PlayerStartX, PlayerStartY, [])
    {
      x := 400.0 - PlayerWidth / 2.0;
      y := 500.0;
      bullets := [];
    }

    function State(): PlayerState
      reads this
    {
      PlayerState(x, y, bullets)
    }

    /** `move`: one step left or right, refused when the ship would leave
        the field. */
    method Move(direction: Direction)
      modifies this`x
      ensures x == MoveX(old(x), direction)
    {
      var step := speed * (if direction == Left then -1.0 else 1.0);
      var newX := x + step;
      var maxX := FieldWidth - width;
      if newX >= 0.0 && newX <= maxX {
        x := newX;
      }
    }

    /** `shoot`: exactly one bullet is appended at the ship's horizontal
        centre and top edge; earlier bullets and the ship do not change. */
    method Shoot()
      modifies this`bullets
      ensures bullets == old(bullets) + [Bullet(x + width / 2.0, y, BulletWidth, BulletHeight, BulletSpeed)]
      ensures bullets == old(bullets) + [Fired(x, y)]
    {
      bullets := bullets + [Bullet(x + width / 2.0, y, 5.0, 10.0, 7.0)];
    }
  }

  class Enemy {
    const width: real := EnemyWidth
    const height: real := EnemyHeight
    const speed: real := EnemySpeed
    const x: real
    var y: real

    /** An enemy at a horizontal position drawn from `random` (the value of
        Math.random()), just above the top edge. */
    constructor (random: real)
      requires 0.0 <= random < 1.0
      ensures State() == Spawned(random)
    {
      x := random * (FieldWidth - EnemyWidth);
      y := -EnemyHeight;
    }

    function State(): EnemyState
      reads this
    {
      EnemyState(x, y)
    }

    /** `move`: the enemy falls by its speed scaled by the canvas height. */
    method Move(canvasHeight: nat)
      modifies this`y
      ensures State() == Fall(old(State()), canvasHeight)
    {
      y := y + speed * (canvasHeight as real / ReferenceHeight);
    }
  }

  /** The values of a list of enemy objects. */
  ghost function Views(es: seq<Enemy>): (vs: seq<EnemyState>)
    reads es
    ensures |vs| == |es|
  {
    seq(|es|, i requires 0 <= i < |es| reads es => es[i].State())
  }

  ghost predicate Distinct(es: seq<Enemy>)
  {
    forall i, j :: 0 <= i < j < |es| ==> es[i] != es[j]
  }

  ghost predicate Member(e: Enemy, es: seq<Enemy>)
  {
    e in es
  }

  /** Every enemy object of `a` is one of `b`: no handle is made up. The
      quantifier fires only on `Member`, which only the lemmas below
      mention, so the heap-heavy loops carry it at no cost. */
  ghost predicate Within(a: seq<Enemy>, b: seq<Enemy>)
  {
    forall e {:trigger Member(e, a)} :: e in a ==> e in b
  }

  lemma WithinIff(a: seq<Enemy>, b: seq<Enemy>)
    ensures Within(a, b) <==> forall e :: e in a ==> e in b
  {
    if Within(a, b) {
      forall e | e in a
        ensures e in b
      {
        assert Member(e, a);
      }
    }
  }

  lemma WithinTrans(a: seq<Enemy>, b: seq<Enemy>, c: seq<Enemy>)
    requires Within(a, b) && Within(b, c)
    ensures Within(a, c)
  {
    forall e | Member(e, a)
      ensures e in c
    {
      assert Member(e, b);
    }
  }

  lemma WithinHas(a: seq<Enemy>, b: seq<Enemy>, e: Enemy)
    requires Within(a, b) && e in a
    ensures e in b
  {
    assert Member(e, a);
  }

  lemma WithinSelf(es: seq<Enemy>)
    ensures Within(es, es)
  {
  }

  lemma WithinRemoveAt(es: seq<Enemy>, j: nat)
    ensures Within(RemoveAt(es, j), es)
  {
    RemoveAtContents(es, j);
  }

  lemma ViewsRemoveAt(es: seq<Enemy>, j: nat)
    ensures Views(RemoveAt(es, j)) == RemoveAt(Views(es), j)
  {
  }

  lemma DistinctRemoveAt(es: seq<Enemy>, j: nat)
    requires Distinct(es)
    ensures Distinct(RemoveAt(es, j))
  {
    if j < |es| {
      var r := RemoveAt(es, j);
      forall a, b | 0 <= a < b < |r| ensures r[a] != r[b] {
        var a' := if a < j then a else a + 1;
        var b' := if b < j then b else b + 1;
        assert r[a] == es[a'] && r[b] == es[b'];
      }
    }
  }

  class Game {
    var player: Player
    var enemies: seq<Enemy>
    var score: int
    var lives: int
    var isGameOver: bool

    /** No enemy object is on the list twice. */
    ghost predicate Valid()
      reads this
    {
      Distinct(enemies)
    }

    /** The session as a value. */
    ghost function Snap(): GameState
      reads this, player, enemies
    {
      GameState(player.State(), Views(enemies), score, lives, isGameOver)
    }

    constructor ()
      ensures Valid() && fresh(player)
      ensures Snap() == Initial()
    {
      player := new Player();
      enemies := [];
      score := 0;
      lives := 3;
      isGameOver := false;
    }

    /** `restartGame`: score 0, 3 lives, not over, no enemies, and a fresh
        ship at its start position with no bullets. */
    method Restart()
      modifies this
      ensures Valid() && fresh(player)
      ensures Snap() == Initial()
    {
      score := 0;
      lives := 3;
      isGameOver := false;
      enemies := [];
      player := new Player();
      player.x := 400.0 - player.width / 2.0;
      player.y := 500.0;
    }

    /** The state part of `gameOver`. */
    method GameOver()
      modifies this`isGameOver
      ensures Snap() == old(Snap()).(isGameOver := true)
    {
      isGameOver := true;
    }

    /** The enemy-spawn timer's callback: a new enemy is appended. */
    method SpawnEnemy(random: real)
      requires Valid() && 0.0 <= random < 1.0
      modifies this`enemies
      ensures Valid() && |enemies| == |old(enemies)| + 1
      ensures fresh(enemies[|enemies| - 1]) && enemies[..|enemies| - 1] == old(enemies)
      ensures Snap() == Spawn(old(Snap()), random)
    {
      var enemy := new Enemy(random);
      enemies := enemies + [enemy];
      assert Views(enemies) == old(Views(enemies)) + [Spawned(random)];
    }

    /** The space key: the ship shoots, whether or not the game is over. */
    method Shoot()
      modifies player`bullets
      ensures Snap() == Session.Shoot(old(Snap()))
    {
      player.Shoot();
    }

    /** The touch auto-fire timer's callback: the ship shoots unless the game
        is over. */
    method AutoFire()
      modifies player`bullets
      ensures Snap() == Session.AutoFire(old(Snap()))
    {
      if !isGameOver {
        player.Shoot();
      }
    }

    /** `update`: nothing after game over; otherwise steer by the two arrow
        keys, advance the bullets, advance the enemies, check collisions. */
    method Update(left: bool, right: bool, canvasHeight: nat)
      requires Valid()
      modifies this, player, enemies
      ensures Valid() && player == old(player)
      ensures forall e :: e in enemies ==> e in old(enemies)
      ensures Snap() == Tick(old(Snap()), left, right, canvasHeight)
    {
      if !isGameOver {
        SteerShip(left, right);
        MoveBullets();
        MoveEnemies(canvasHeight);
        ghost var moved := enemies;
        CheckCollisions();
        WithinTrans(enemies, moved, old(enemies));
      }
      WithinIff(enemies, old(enemies));
    }

    /** The arrow keys of `update`: left first, then right. */
    method SteerShip(left: bool, right: bool)
      requires Valid()
      modifies player`x
      ensures Valid()
      ensures Snap() == SteerPhase(old(Snap()), left, right)
    {
      if left {
        player.Move(Left);
      }
      if right {
        player.Move(Right);
      }
    }

    /** One call of the bullet loop's callback at index i: the bullet there
        rises by its speed and is spliced out if it is then above the top
        edge. */
    method VisitBullet(i: nat)
      requires Valid() && i < |player.bullets|
      modifies player`bullets
      ensures Valid()
      ensures Snap() == BulletVisited(old(Snap()), i)
    {
      var bullet := player.bullets[i];
      bullet := bullet.(y := bullet.y - bullet.speed);
      player.bullets := player.bullets[i := bullet];
      if bullet.y < 0.0 {
        player.bullets := RemoveAt(player.bullets, i);
      }
    }

    /** The bullet loop of `update`: every index below the bullet count at
        the start is visited, and an index past the current end is skipped. */
    method MoveBullets()
      requires Valid()
      modifies player`bullets
      ensures Valid()
      ensures Snap() == BulletPhase(old(Snap()))
    {
      ghost var s := Snap();
      ghost var orig := player.bullets;
      ghost var c := BulletCursor(0, []);
      var n := |player.bullets|;
      var i := 0;
      while i < n
        invariant n == |orig| && BulletOnTheWay(orig, c)
        invariant |c.kept| <= i && (c.next < |orig| ==> |c.kept| == i)
        invariant Valid() && Snap() == s.(player := s.player.(bullets := c.kept + orig[c.next..]))
      {
        if i < |player.bullets| {
          BulletVisitStep(orig, c);
          VisitBullet(i);
          c := BulletVisit(orig, c);
        }
        i := i + 1;
      }
      assert orig[c.next..] == [];
    }

    /** One call of the enemy loop's callback at index i: the enemy there
        falls and, if it is then below the canvas, is spliced out and costs
        a life, and the game ends once lives are at or below 0. */
    method VisitEnemy(i: nat, canvasHeight: nat)
      requires Valid() && i < |enemies|
      modifies this`enemies, this`lives, this`isGameOver, enemies[i]
      ensures Valid() && Within(enemies, old(enemies))
      ensures Snap() == EnemyVisited(old(Snap()), i, canvasHeight)
    {
      WithinSelf(enemies);
      ghost var s := Snap();
      ghost var fallen := s.enemies[i := Fall(s.enemies[i], canvasHeight)];
      var enemy := enemies[i];
      enemy.Move(canvasHeight);
      assert Views(enemies) == fallen;
      if enemy.y > canvasHeight as real {
        ViewsRemoveAt(enemies, i);
        DistinctRemoveAt(enemies, i);
        RemoveAtContents(enemies, i);
        WithinRemoveAt(enemies, i);
        enemies := RemoveAt(enemies, i);
        lives := lives - 1;
        if lives <= 0 {
          GameOver();
        }
        assert Snap() == s.(enemies := RemoveAt(fallen, i), lives := s.lives - 1,
                            isGameOver := s.isGameOver || s.lives - 1 <= 0);
      } else {
        assert Snap() == s.(enemies := fallen);
      }
    }

    /** The enemy loop of `update`: every index below the enemy count at the
        start is visited, and an index past the current end is skipped. */
    method MoveEnemies(canvasHeight: nat)
      requires Valid()
      modifies this`enemies, this`lives, this`isGameOver, enemies
      ensures Valid() && Within(enemies, old(enemies))
      ensures Snap() == EnemyPhase(old(Snap()), canvasHeight)
    {
      WithinSelf(enemies);
      ghost var s := Snap();
      ghost var c := EnemyCursor(0, [], 0);
      EnemyPhaseAtEnds(s, canvasHeight, c);
      var n := |enemies|;
      var i := 0;
      while i < n
        invariant n == |s.enemies| && OnTheWay(s.enemies, canvasHeight, c)
        invariant |c.kept| <= i && (c.next < n ==> |c.kept| == i)
        invariant Valid() && Within(enemies, old(enemies))
        invariant Snap() == EnemyPhaseAt(s, c)
      {
        if i < |enemies| {
          WithinHas(enemies, old(enemies), enemies[i]);
          EnemyPhaseAtStep(s, canvasHeight, c);
          ghost var before := enemies;
          VisitEnemy(i, canvasHeight);
          WithinTrans(enemies, before, old(enemies));
          c := EnemyVisit(s.enemies, canvasHeight, c);
        }
        i := i + 1;
      }
      EnemyPhaseAtEnds(s, canvasHeight, c);
    }

    /** One call of the inner callback of `checkCollisions`: if the enemy
        at index j overlaps the bullet taken at bullet index i, index i is
        spliced out of the bullet list, index j out of the enemy list, and
        the score rises by 100. */
    method TestHit(bullet: Bullet, i: nat, j: nat)
      requires Valid()
      modifies this`enemies, this`score, player`bullets
      ensures Valid() && Within(enemies, old(enemies))
      ensures Snap() == HitTested(old(Snap()), bullet, i, j)
    {
      WithinSelf(enemies);
      if j < |enemies| && IsColliding(bullet.Box(), enemies[j].State().Box()) {
        ViewsRemoveAt(enemies, j);
        DistinctRemoveAt(enemies, j);
        WithinRemoveAt(enemies, j);
        player.bullets := RemoveAt(player.bullets, i);
        enemies := RemoveAt(enemies, j);
        score := score + 100;
      }
    }

    /** One call of the outer callback of `checkCollisions`: the bullet at
        index i is tested against every enemy index below the enemy count
        at the start of this call. */
    method TestBullet(i: nat)
      requires Valid() && i < |player.bullets|
      modifies this`enemies, this`score, player`bullets
      ensures Valid() && Within(enemies, old(enemies))
      ensures var s := old(Snap());
        Snap() == HitsLeft(s, s.player.bullets[i], i, 0, |s.enemies|)
    {
      WithinSelf(enemies);
      ghost var s := Snap();
      ghost var E := enemies;
      var bullet := player.bullets[i];
      var m := |enemies|;
      ghost var goal := HitsLeft(s, bullet, i, 0, m);
      var j := 0;
      while j < m
        invariant Valid() && Within(enemies, E)
        invariant goal == HitsLeft(Snap(), bullet, i, j, m)
      {
        ghost var t := Snap();
        ghost var before := enemies;
        HitsLeftStep(t, bullet, i, j, m);
        TestHit(bullet, i, j);
        WithinTrans(enemies, before, E);
        j := j + 1;
      }
      HitsLeftDone(Snap(), bullet, i, m);
    }

    /** `checkCollisions`: every bullet index below the bullet count at the
        start is visited, and an index past the current end is skipped. */
    method CheckCollisions()
      requires Valid()
      modifies this`enemies, this`score, player`bullets
      ensures Valid() && Within(enemies, old(enemies))
      ensures Snap() == CollisionPhase(old(Snap()))
    {
      WithinSelf(enemies);
      ghost var s := Snap();
      CollisionsLeftEnds(s, 0);
      var n := |player.bullets|;
      var i := 0;
      while i < n
        invariant Valid() && Within(enemies, old(enemies))
        invariant CollisionPhase(s) == CollisionsLeft(Snap(), i, n)
      {
        CollisionsLeftStep(Snap(), i, n);
        if i < |player.bullets| {
          ghost var before := enemies;
          TestBullet(i);
          WithinTrans(enemies, before, old(enemies));
        }
        i := i + 1;
      }
      CollisionsLeftEnds(Snap(), n);
    }
  }

  /** Two frames with the left arrow held, and an auto-fire shot and an
      enemy spawn between them. Each call leaves the ship and the enemy
      handles usable by the next call, so the frames chain as in the
      running game. */
  method TwoFrames() returns (g: Game)
    ensures fresh(g) && fresh(g.player) && g.Valid()
    ensures g.Snap() == Tick(Spawn(AutoFire(Tick(Initial(), true, false, 600)), 0.5), true, false, 600)
    ensures g.player.x == 365.0
  {
    g := new Game();
    g.Update(true, false, 600);
    g.AutoFire();
    g.SpawnEnemy(0.5);
    g.Update(true, false, 600);
  }
}
