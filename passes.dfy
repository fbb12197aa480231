/** The three passes of one tick over the game's lists, as values.

    The game walks its lists with `forEach` and removes from the same list
    with `splice` while walking it. `forEach` fixes the number of steps when
    it starts and always advances its index, so after a removal at index i
    the element that shifts into slot i is not visited in that pass, and a
    step whose index is past the current end does nothing. The bullet and
    enemy passes are given here in closed form (a removal skips the next
    element); the collision pass is given step by step, as the nested loops
    run it. */
module Passes {
  import opened Geometry
  import opened Entities

  /** `splice(i, 1)`: removes the element at index i; an index at or past
      the end removes nothing. */
  function RemoveAt<T>(s: seq<T>, i: nat): seq<T>
  {
    if i < |s| then s[..i] + s[i + 1..] else s
  }

  lemma RemoveAtContents<T>(s: seq<T>, i: nat)
    ensures i < |s| ==> multiset(RemoveAt(s, i)) == multiset(s) - multiset{s[i]}
    ensures |RemoveAt(s, i)| == if i < |s| then |s| - 1 else |s|
    ensures forall x :: x in RemoveAt(s, i) ==> x in s
  {
    if i < |s| {
      assert s == s[..i] + [s[i]] + s[i + 1..];
      forall x | x in RemoveAt(s, i) ensures x in s {
        assert x in multiset(RemoveAt(s, i));
      }
    }
  }

  lemma Regroup<T>(done: seq<T>, x: T, rest: seq<T>)
    ensures done + ([x] + rest) == (done + [x]) + rest
  {
  }

  // ---------------------------------------------------------------------
  // Bullet pass: every visited bullet rises by its speed and is removed if
  // it is then above the top edge (y < 0).

  /** The bullet list after the bullet pass of one tick. */
  function BulletPass(s: seq<Bullet>): seq<Bullet>
    decreases |s|
  {
    if s == [] then []
    else
      var b := Advance(s[0]);
      if b.y < 0.0 then
        if |s| == 1 then [] else [s[1]] + BulletPass(s[2..])
      else
        [b] + BulletPass(s[1..])
  }

  /** The bullet pass on the suffix from index k, unfolded once. */
  lemma BulletPassUnfold(s: seq<Bullet>, k: nat)
    requires k < |s|
    ensures Advance(s[k]).y < 0.0 && k + 1 < |s| ==> BulletPass(s[k..]) == [s[k + 1]] + BulletPass(s[k + 2..])
    ensures Advance(s[k]).y < 0.0 && k + 1 == |s| ==> BulletPass(s[k..]) == []
    ensures Advance(s[k]).y >= 0.0 ==> BulletPass(s[k..]) == [Advance(s[k])] + BulletPass(s[k + 1..])
  {
    assert s[k..][1..] == s[k + 1..];
    if k + 1 < |s| {
      assert s[k..][2..] == s[k + 2..];
    }
  }

  /** One step of the bullet pass at original index k, for a pass whose
      output so far is `done`. */
  lemma BulletPassStep(s: seq<Bullet>, k: nat, done: seq<Bullet>)
    requires k < |s| && BulletPass(s) == done + BulletPass(s[k..])
    ensures Advance(s[k]).y < 0.0 && k + 1 < |s| ==> BulletPass(s) == (done + [s[k + 1]]) + BulletPass(s[k + 2..])
    ensures Advance(s[k]).y < 0.0 && k + 1 == |s| ==> BulletPass(s) == done + BulletPass(s[k + 1..])
    ensures Advance(s[k]).y >= 0.0 ==> BulletPass(s) == (done + [Advance(s[k])]) + BulletPass(s[k + 1..])
  {
    BulletPassUnfold(s, k);
    var b := Advance(s[k]);
    if b.y < 0.0 && k + 1 < |s| {
      Regroup(done, s[k + 1], BulletPass(s[k + 2..]));
    } else if b.y < 0.0 {
      assert s[k + 1..] == [];
    } else {
      Regroup(done, b, BulletPass(s[k + 1..]));
    }
  }

  /** How far the bullet pass has got: the next original index to visit
      and the bullets kept so far. */
  datatype BulletCursor = BulletCursor(next: nat, kept: seq<Bullet>)

  /** One callback of the bullet pass, on the cursor: the bullet at `next`
      rises; if it is then off the top, the one after it shifts into its
      slot and is skipped. */
  function BulletVisit(s: seq<Bullet>, c: BulletCursor): BulletCursor
    requires c.next < |s|
  {
    var b := Advance(s[c.next]);
    if b.y < 0.0 then
      if c.next + 1 < |s| then BulletCursor(c.next + 2, c.kept + [s[c.next + 1]])
      else BulletCursor(c.next + 1, c.kept)
    else BulletCursor(c.next + 1, c.kept + [b])
  }

  /** The cursor is a point on the way to the closed form of the pass. */
  predicate BulletOnTheWay(s: seq<Bullet>, c: BulletCursor)
  {
    |c.kept| <= c.next <= |s| && BulletPass(s) == c.kept + BulletPass(s[c.next..])
  }

  /** The bullet list after the callback at index i: the bullet there
      rises, and is spliced out if it is then above the top edge. */
  function AfterBulletVisit(v: seq<Bullet>, i: nat): seq<Bullet>
    requires i < |v|
  {
    var b := Advance(v[i]);
    if b.y < 0.0 then RemoveAt(v[i := b], i) else v[i := b]
  }

  /** The list `done + s[k..]` after its element at index |done| is
      replaced by x, and after that element is then spliced out. */
  lemma SpliceAfter<T>(done: seq<T>, s: seq<T>, k: nat, x: T)
    requires k < |s|
    ensures (done + s[k..])[|done| := x] == (done + [x]) + s[k + 1..]
    ensures var u := (done + s[k..])[|done| := x];
      u[..|done|] + u[|done| + 1..] == done + s[k + 1..]
    ensures k + 1 < |s| ==> done + s[k + 1..] == (done + [s[k + 1]]) + s[k + 2..]
  {
    var u := (done + s[k..])[|done| := x];
    assert u == (done + [x]) + s[k + 1..];
    assert u[..|done|] == done;
    assert u[|done| + 1..] == s[k + 1..];
    if k + 1 < |s| {
      assert s[k + 1..] == [s[k + 1]] + s[k + 2..];
    }
  }

  /** One callback keeps the cursor on the way to the closed form, and the
      list `kept + s[next..]` it walks changes exactly as the callback
      changes it in place. */
  lemma BulletVisitStep(s: seq<Bullet>, c: BulletCursor)
    requires c.next < |s| && BulletOnTheWay(s, c)
    ensures var d := BulletVisit(s, c);
      BulletOnTheWay(s, d) &&
      AfterBulletVisit(c.kept + s[c.next..], |c.kept|) == d.kept + s[d.next..] &&
      |d.kept| <= |c.kept| + 1 &&
      (d.next < |s| ==> |d.kept| == |c.kept| + 1)
  {
    BulletPassStep(s, c.next, c.kept);
    SpliceAfter(c.kept, s, c.next, Advance(s[c.next]));
    assert (c.kept + s[c.next..])[|c.kept|] == s[c.next];
  }

  /** The cursor after the first `steps` callbacks of the bullet pass,
      starting from index 0; a callback whose index is past the end of the
      shrunken list does nothing. */
  function BulletCursorAfter(s: seq<Bullet>, steps: nat): BulletCursor
  {
    if steps == 0 then BulletCursor(0, [])
    else
      var c := BulletCursorAfter(s, steps - 1);
      if c.next < |s| then BulletVisit(s, c) else c
  }

  /** Every cursor the walk reaches is on the way to the closed form. */
  lemma {:induction false} BulletCursorAfterOnTheWay(s: seq<Bullet>, steps: nat)
    ensures var c := BulletCursorAfter(s, steps);
      BulletOnTheWay(s, c)
  {
    if steps == 0 {
      assert s[0..] == s;
    } else {
      var c := BulletCursorAfter(s, steps - 1);
      BulletCursorAfterOnTheWay(s, steps - 1);
      if c.next < |s| {
        BulletVisitStep(s, c);
      }
    }
  }

  /** While the walk is inside the list, the index of its slot in the
      current list `kept + s[next..]` is the number of callbacks made,
      which is the index the next callback is given; once it is past the
      end, every later callback finds its index past the current end. */
  lemma {:induction false} BulletCursorAfterSlot(s: seq<Bullet>, steps: nat)
    ensures var c := BulletCursorAfter(s, steps);
      |c.kept| <= steps && (c.next < |s| ==> |c.kept| == steps)
  {
    if steps > 0 {
      BulletCursorAfterSlot(s, steps - 1);
    }
  }

  /** The pass never adds bullets, and because the bullet after a removed
      one is skipped it removes at most one bullet in every two. */
  lemma {:induction false} BulletPassLength(s: seq<Bullet>)
    ensures |BulletPass(s)| <= |s|
    ensures 2 * (|s| - |BulletPass(s)|) <= |s| + 1
  {
    if s != [] {
      if Advance(s[0]).y < 0.0 {
        if |s| > 1 { BulletPassLength(s[2..]); }
      } else {
        BulletPassLength(s[1..]);
      }
    }
  }

  /** When no bullet leaves the top, every bullet is visited, advanced and
      kept, in order. */
  lemma {:induction false} BulletPassAllStay(s: seq<Bullet>)
    requires forall i :: 0 <= i < |s| ==> Advance(s[i]).y >= 0.0
    ensures |BulletPass(s)| == |s|
    ensures forall i :: 0 <= i < |s| ==> BulletPass(s)[i] == Advance(s[i])
  {
    if s != [] {
      BulletPassAllStay(s[1..]);
    }
  }

  /** A bullet that survives the pass is a visited bullet still at y >= 0,
      or a skipped bullet that the pass left untouched. */
  lemma {:induction false} BulletPassSurvivors(s: seq<Bullet>)
    ensures forall b :: b in BulletPass(s) ==> b in s || (b.y >= 0.0 && exists c :: c in s && b == Advance(c))
  {
    if s != [] {
      var b := Advance(s[0]);
      if b.y < 0.0 {
        if |s| > 1 {
          BulletPassSurvivors(s[2..]);
          forall c | c in s[2..] ensures c in s { }
        }
      } else {
        BulletPassSurvivors(s[1..]);
        forall c | c in s[1..] ensures c in s { }
      }
    }
  }

  /** The skip itself: when the callback given index `steps` finds at its
      index the original bullet k = `next` and that bullet leaves the top,
      slot `steps` of the result holds original bullet k + 1, unmoved, and
      the walk resumes at original index k + 2. */
  lemma ExitedBulletIsReplacedBySkipped(s: seq<Bullet>, steps: nat)
    requires var c := BulletCursorAfter(s, steps);
      c.next + 1 < |s| && Advance(s[c.next]).y < 0.0
    ensures var c := BulletCursorAfter(s, steps);
      |c.kept| == steps && steps < |BulletPass(s)| &&
      BulletPass(s)[|c.kept|] == s[c.next + 1] &&
      BulletPass(s) == c.kept + [s[c.next + 1]] + BulletPass(s[c.next + 2..])
  {
    var c := BulletCursorAfter(s, steps);
    BulletCursorAfterOnTheWay(s, steps);
    BulletCursorAfterSlot(s, steps);
    BulletPassStep(s, c.next, c.kept);
  }

  /** If every bullet is on or below the top edge before the pass, every
      bullet left after it is too: a bullet with y < 0 is never kept. */
  lemma BulletPassKeepsOnField(s: seq<Bullet>)
    requires forall b :: b in s ==> b.y >= 0.0
    ensures forall b :: b in BulletPass(s) ==> b.y >= 0.0
  {
    BulletPassSurvivors(s);
  }

  /** Two bullets that would both leave the top this tick: the first is
      removed, the second shifts into its slot, is not visited, does not
      move, and stays in the list. */
  lemma SkippedAfterRemoval()
    ensures BulletPass([Bullet(0.0, 3.0, 5.0, 10.0, 7.0), Bullet(0.0, 1.0, 5.0, 10.0, 7.0)])
         == [Bullet(0.0, 1.0, 5.0, 10.0, 7.0)]
  {
  }

  // ---------------------------------------------------------------------
  // Enemy pass: every visited enemy falls one step and is removed, costing
  // a life, if it is then below the bottom edge (y > canvas height).

  /** What the enemy pass leaves: the enemies still on the list and how many
      escaped past the bottom (one life each). */
  datatype Sweep = Sweep(kept: seq<EnemyState>, escaped: nat)

  function EnemyPass(s: seq<EnemyState>, canvasHeight: nat): Sweep
    decreases |s|
  {
    if s == [] then Sweep([], 0)
    else
      var e := Fall(s[0], canvasHeight);
      if e.y > canvasHeight as real then
        if |s| == 1 then Sweep([], 1)
        else
          var r := EnemyPass(s[2..], canvasHeight);
          Sweep([s[1]] + r.kept, r.escaped + 1)
      else
        var r := EnemyPass(s[1..], canvasHeight);
        Sweep([e] + r.kept, r.escaped)
  }

  /** The enemy pass on the suffix from index k, unfolded once. */
  lemma EnemyPassUnfold(s: seq<EnemyState>, canvasHeight: nat, k: nat)
    requires k < |s|
    ensures var e := Fall(s[k], canvasHeight);
      (e.y > canvasHeight as real && k + 1 < |s| ==>
         var r := EnemyPass(s[k + 2..], canvasHeight);
         EnemyPass(s[k..], canvasHeight) == Sweep([s[k + 1]] + r.kept, r.escaped + 1)) &&
      (e.y > canvasHeight as real && k + 1 == |s| ==> EnemyPass(s[k..], canvasHeight) == Sweep([], 1)) &&
      (e.y <= canvasHeight as real ==>
         var r := EnemyPass(s[k + 1..], canvasHeight);
         EnemyPass(s[k..], canvasHeight) == Sweep([e] + r.kept, r.escaped))
  {
    assert s[k..][1..] == s[k + 1..];
    if k + 1 < |s| {
      assert s[k..][2..] == s[k + 2..];
    }
  }

  /** One step of the enemy pass at original index k, for a pass that so
      far kept `done` and counted `escaped` escapes. */
  lemma EnemyPassStep(s: seq<EnemyState>, canvasHeight: nat, k: nat, done: seq<EnemyState>, escaped: nat)
    requires k < |s|
    requires var rest := EnemyPass(s[k..], canvasHeight);
      EnemyPass(s, canvasHeight) == Sweep(done + rest.kept, escaped + rest.escaped)
    ensures var e := Fall(s[k], canvasHeight);
      (e.y > canvasHeight as real && k + 1 < |s| ==>
         var rest := EnemyPass(s[k + 2..], canvasHeight);
         EnemyPass(s, canvasHeight) == Sweep((done + [s[k + 1]]) + rest.kept, (escaped + 1) + rest.escaped)) &&
      (e.y > canvasHeight as real && k + 1 == |s| ==>
         var rest := EnemyPass(s[k + 1..], canvasHeight);
         EnemyPass(s, canvasHeight) == Sweep(done + rest.kept, (escaped + 1) + rest.escaped)) &&
      (e.y <= canvasHeight as real ==>
         var rest := EnemyPass(s[k + 1..], canvasHeight);
         EnemyPass(s, canvasHeight) == Sweep((done + [e]) + rest.kept, escaped + rest.escaped))
  {
    EnemyPassUnfold(s, canvasHeight, k);
    if k + 1 == |s| {
      assert s[k + 1..] == [];
    }
  }

  /** How far the enemy pass has got: the next original index to visit,
      the enemies kept so far and the number that escaped so far. */
  datatype EnemyCursor = EnemyCursor(next: nat, kept: seq<EnemyState>, escaped: nat)

  /** One callback of the enemy pass, on the cursor: the enemy at `next`
      falls; if it escapes, the one after it shifts into its slot and is
      skipped. */
  function EnemyVisit(s: seq<EnemyState>, canvasHeight: nat, c: EnemyCursor): EnemyCursor
    requires c.next < |s|
  {
    var e := Fall(s[c.next], canvasHeight);
    if e.y > canvasHeight as real then
      if c.next + 1 < |s| then EnemyCursor(c.next + 2, c.kept + [s[c.next + 1]], c.escaped + 1)
      else EnemyCursor(c.next + 1, c.kept, c.escaped + 1)
    else EnemyCursor(c.next + 1, c.kept + [e], c.escaped)
  }

  /** The cursor is a point on the way to the closed form of the pass. */
  predicate OnTheWay(s: seq<EnemyState>, canvasHeight: nat, c: EnemyCursor)
  {
    |c.kept| <= c.next <= |s| &&
    var rest := EnemyPass(s[c.next..], canvasHeight);
    EnemyPass(s, canvasHeight) == Sweep(c.kept + rest.kept, c.escaped + rest.escaped)
  }

  /** An enemy that is below the canvas once it has fallen one step. */
  predicate Escapes(e: EnemyState, canvasHeight: nat)
  {
    Fall(e, canvasHeight).y > canvasHeight as real
  }

  /** The enemy list after the callback at index i: the enemy there
      falls, and is spliced out if it then escapes. */
  function AfterEnemyVisit(v: seq<EnemyState>, i: nat, canvasHeight: nat): seq<EnemyState>
    requires i < |v|
  {
    var e := Fall(v[i], canvasHeight);
    if Escapes(v[i], canvasHeight) then RemoveAt(v[i := e], i) else v[i := e]
  }

  /** One callback keeps the cursor on the way to the closed form, and the
      list `kept + s[next..]` it walks changes exactly as the callback
      changes it in place. */
  lemma EnemyVisitStep(s: seq<EnemyState>, canvasHeight: nat, c: EnemyCursor)
    requires c.next < |s| && OnTheWay(s, canvasHeight, c)
    ensures var d := EnemyVisit(s, canvasHeight, c);
      var v := c.kept + s[c.next..];
      OnTheWay(s, canvasHeight, d) &&
      AfterEnemyVisit(v, |c.kept|, canvasHeight) == d.kept + s[d.next..] &&
      d.escaped == c.escaped + (if Escapes(v[|c.kept|], canvasHeight) then 1 else 0) &&
      |d.kept| <= |c.kept| + 1 &&
      (d.next < |s| ==> |d.kept| == |c.kept| + 1)
  {
    EnemyVisitOnTheWay(s, canvasHeight, c);
    EnemyVisitSplice(s, canvasHeight, c);
  }

  /** The first half of `EnemyVisitStep`: the cursor stays on the way. */
  lemma EnemyVisitOnTheWay(s: seq<EnemyState>, canvasHeight: nat, c: EnemyCursor)
    requires c.next < |s| && OnTheWay(s, canvasHeight, c)
    ensures OnTheWay(s, canvasHeight, EnemyVisit(s, canvasHeight, c))
  {
    EnemyPassStep(s, canvasHeight, c.next, c.kept, c.escaped);
  }

  /** The second half of `EnemyVisitStep`: the walked list and the escape
      count change as the callback changes them. */
  lemma EnemyVisitSplice(s: seq<EnemyState>, canvasHeight: nat, c: EnemyCursor)
    requires c.next < |s|
    ensures var d := EnemyVisit(s, canvasHeight, c);
      var v := c.kept + s[c.next..];
      AfterEnemyVisit(v, |c.kept|, canvasHeight) == d.kept + s[d.next..] &&
      d.escaped == c.escaped + (if Escapes(v[|c.kept|], canvasHeight) then 1 else 0) &&
      |d.kept| <= |c.kept| + 1 &&
      (d.next < |s| ==> |d.kept| == |c.kept| + 1)
  {
    SpliceAfter(c.kept, s, c.next, Fall(s[c.next], canvasHeight));
    assert (c.kept + s[c.next..])[|c.kept|] == s[c.next];
  }

  /** The cursor after the first `steps` callbacks of the enemy pass,
      starting from index 0; a callback whose index is past the end of the
      shrunken list does nothing. */
  function EnemyCursorAfter(s: seq<EnemyState>, canvasHeight: nat, steps: nat): EnemyCursor
  {
    if steps == 0 then EnemyCursor(0, [], 0)
    else
      var c := EnemyCursorAfter(s, canvasHeight, steps - 1);
      if c.next < |s| then EnemyVisit(s, canvasHeight, c) else c
  }

  /** Every cursor the walk reaches is on the way to the closed form. */
  lemma {:induction false} EnemyCursorAfterOnTheWay(s: seq<EnemyState>, canvasHeight: nat, steps: nat)
    ensures var c := EnemyCursorAfter(s, canvasHeight, steps);
      OnTheWay(s, canvasHeight, c)
  {
    if steps == 0 {
      assert s[0..] == s;
    } else {
      var c := EnemyCursorAfter(s, canvasHeight, steps - 1);
      EnemyCursorAfterOnTheWay(s, canvasHeight, steps - 1);
      if c.next < |s| {
        EnemyVisitOnTheWay(s, canvasHeight, c);
      }
    }
  }

  /** While the walk is inside the list, the index of its slot in the
      current list `kept + s[next..]` is the number of callbacks made,
      which is the index the next callback is given; once it is past the
      end, every later callback finds its index past the current end. */
  lemma {:induction false} EnemyCursorAfterSlot(s: seq<EnemyState>, canvasHeight: nat, steps: nat)
    ensures var c := EnemyCursorAfter(s, canvasHeight, steps);
      |c.kept| <= steps && (c.next < |s| ==> |c.kept| == steps)
  {
    if steps > 0 {
      EnemyCursorAfterSlot(s, canvasHeight, steps - 1);
    }
  }

  /** The skip on the enemy list: when the callback given index `steps`
      finds at its index the original enemy k = `next` and that enemy
      escapes, it costs one life, slot `steps` of the result holds original
      enemy k + 1, which has not fallen, and the walk resumes at original
      index k + 2. */
  lemma EscapedEnemyIsReplacedBySkipped(s: seq<EnemyState>, canvasHeight: nat, steps: nat)
    requires var c := EnemyCursorAfter(s, canvasHeight, steps);
      c.next + 1 < |s| && Escapes(s[c.next], canvasHeight)
    ensures var c := EnemyCursorAfter(s, canvasHeight, steps);
      var r := EnemyPass(s, canvasHeight);
      var rest := EnemyPass(s[c.next + 2..], canvasHeight);
      |c.kept| == steps && steps < |r.kept| &&
      r.kept[|c.kept|] == s[c.next + 1] &&
      r == Sweep(c.kept + [s[c.next + 1]] + rest.kept, c.escaped + 1 + rest.escaped)
  {
    var c := EnemyCursorAfter(s, canvasHeight, steps);
    EnemyCursorAfterOnTheWay(s, canvasHeight, steps);
    EnemyCursorAfterSlot(s, canvasHeight, steps);
    EnemyPassStep(s, canvasHeight, c.next, c.kept, c.escaped);
  }

  /** Every enemy is either kept or counted as escaped, and at most one in
      every two escapes in one pass. */
  lemma {:induction false} EnemyPassCount(s: seq<EnemyState>, canvasHeight: nat)
    ensures |EnemyPass(s, canvasHeight).kept| + EnemyPass(s, canvasHeight).escaped == |s|
    ensures 2 * EnemyPass(s, canvasHeight).escaped <= |s| + 1
  {
    if s != [] {
      if Fall(s[0], canvasHeight).y > canvasHeight as real {
        if |s| > 1 { EnemyPassCount(s[2..], canvasHeight); }
      } else {
        EnemyPassCount(s[1..], canvasHeight);
      }
    }
  }

  /** When no enemy crosses the bottom, every enemy falls one step, none is
      removed and no life is lost. */
  lemma {:induction false} EnemyPassAllStay(s: seq<EnemyState>, canvasHeight: nat)
    requires forall i :: 0 <= i < |s| ==> Fall(s[i], canvasHeight).y <= canvasHeight as real
    ensures EnemyPass(s, canvasHeight).escaped == 0
    ensures |EnemyPass(s, canvasHeight).kept| == |s|
    ensures forall i :: 0 <= i < |s| ==> EnemyPass(s, canvasHeight).kept[i] == Fall(s[i], canvasHeight)
  {
    if s != [] {
      EnemyPassAllStay(s[1..], canvasHeight);
    }
  }

  // ---------------------------------------------------------------------
  // Collision pass: for every bullet index i (over the length the bullet
  // list had at the start), the bullet then at i is tested against every
  // enemy index j (over the length the enemy list had when that inner loop
  // started). On an overlap the game splices index i out of the bullet
  // list and index j out of the enemy list and scores 100. The inner loop
  // keeps testing the bullet it started with, so a second hit splices out
  // whatever bullet now sits at i.

  /** The lists after a collision pass and the number of overlaps found. */
  datatype Outcome = Outcome(bullets: seq<Bullet>, enemies: seq<EnemyState>, hits: nat)

  /** The inner loop from enemy index j on, for bullet b taken at index i;
      n is the enemy count when this inner loop started. */
  function HitPass(b: Bullet, i: nat, bs: seq<Bullet>, es: seq<EnemyState>, j: nat, n: nat): Outcome
    decreases n - j
  {
    if n <= j then Outcome(bs, es, 0)
    else if j < |es| && IsColliding(b.Box(), es[j].Box()) then
      var r := HitPass(b, i, RemoveAt(bs, i), RemoveAt(es, j), j + 1, n);
      r.(hits := r.hits + 1)
    else
      HitPass(b, i, bs, es, j + 1, n)
  }

  /** The outer loop from bullet index i on; n is the bullet count when the
      pass started. */
  function CollisionPass(bs: seq<Bullet>, es: seq<EnemyState>, i: nat, n: nat): Outcome
    decreases n - i
  {
    if n <= i then Outcome(bs, es, 0)
    else if i < |bs| then
      var r1 := HitPass(bs[i], i, bs, es, 0, |es|);
      var r2 := CollisionPass(r1.bullets, r1.enemies, i + 1, n);
      r2.(hits := r1.hits + r2.hits)
    else
      CollisionPass(bs, es, i + 1, n)
  }

  /** One test of the inner loop: bullet b (taken at bullet index i)
      against the enemy at index j, if there still is one. */
  function HitStep(b: Bullet, i: nat, bs: seq<Bullet>, es: seq<EnemyState>, j: nat): Outcome
  {
    if j < |es| && IsColliding(b.Box(), es[j].Box()) then Outcome(RemoveAt(bs, i), RemoveAt(es, j), 1)
    else Outcome(bs, es, 0)
  }

  /** The inner loop is one test followed by the rest of the loop. */
  lemma HitPassUnfold(b: Bullet, i: nat, bs: seq<Bullet>, es: seq<EnemyState>, j: nat, n: nat)
    requires j < n
    ensures var o := HitStep(b, i, bs, es, j);
      var r := HitPass(b, i, o.bullets, o.enemies, j + 1, n);
      HitPass(b, i, bs, es, j, n) == r.(hits := o.hits + r.hits)
  {
  }

  /** The outer loop is one inner loop (if bullet index i still holds a
      bullet) followed by the rest of the outer loop. */
  lemma CollisionPassUnfold(bs: seq<Bullet>, es: seq<EnemyState>, i: nat, n: nat)
    requires i < n
    ensures i < |bs| ==>
      var r1 := HitPass(bs[i], i, bs, es, 0, |es|);
      var r2 := CollisionPass(r1.bullets, r1.enemies, i + 1, n);
      CollisionPass(bs, es, i, n) == r2.(hits := r1.hits + r2.hits)
    ensures |bs| <= i ==> CollisionPass(bs, es, i, n) == CollisionPass(bs, es, i + 1, n)
  {
  }

  /** `checkCollisions` on the given lists. */
  function Collisions(bs: seq<Bullet>, es: seq<EnemyState>): Outcome
  {
    CollisionPass(bs, es, 0, |bs|)
  }

  /** Some bullet of bs overlaps e. */
  predicate HitBySome(bs: seq<Bullet>, e: EnemyState)
  {
    exists b :: b in bs && IsColliding(b.Box(), e.Box())
  }

  /** What is left of `s` after a splice and further removals is what is
      left of `s`, and everything removed is the spliced element or was
      removed later. */
  lemma SubmultisetOfRemoveAt<T>(s: seq<T>, i: nat, left: multiset<T>)
    requires left <= multiset(RemoveAt(s, i))
    ensures left <= multiset(s)
    ensures forall e :: e in multiset(s) - left ==> (i < |s| && e == s[i]) || e in multiset(RemoveAt(s, i)) - left
  {
    RemoveAtContents(s, i);
  }

  /** The inner loop removes exactly one enemy per overlap, and only enemies
      that overlap the bullet it tests; it removes at most one bullet per
      overlap; it changes no bullet or enemy that it keeps. */
  lemma {:induction false} HitPassAccounting(b: Bullet, i: nat, bs: seq<Bullet>, es: seq<EnemyState>, j: nat, n: nat)
    ensures var r := HitPass(b, i, bs, es, j, n);
      |r.enemies| + r.hits == |es| &&
      |bs| - r.hits <= |r.bullets| <= |bs| &&
      multiset(r.enemies) <= multiset(es) &&
      multiset(r.bullets) <= multiset(bs) &&
      forall e :: e in multiset(es) - multiset(r.enemies) ==> IsColliding(b.Box(), e.Box())
    decreases n - j
  {
    if n <= j {
    } else if j < |es| && IsColliding(b.Box(), es[j].Box()) {
      var bs1, es1 := RemoveAt(bs, i), RemoveAt(es, j);
      RemoveAtContents(bs, i);
      RemoveAtContents(es, j);
      HitPassAccounting(b, i, bs1, es1, j + 1, n);
      var r := HitPass(b, i, bs1, es1, j + 1, n);
      assert HitPass(b, i, bs, es, j, n) == r.(hits := r.hits + 1);
      SubmultisetOfRemoveAt(bs, i, multiset(r.bullets));
      SubmultisetOfRemoveAt(es, j, multiset(r.enemies));
    } else {
      HitPassAccounting(b, i, bs, es, j + 1, n);
    }
  }

  /** The outer loop removes exactly one enemy per overlap, each of them
      overlapping some bullet of the list it started from, and at most one
      bullet per overlap. */
  lemma {:induction false} CollisionPassAccounting(bs: seq<Bullet>, es: seq<EnemyState>, i: nat, n: nat)
    ensures var r := CollisionPass(bs, es, i, n);
      |r.enemies| + r.hits == |es| &&
      |bs| - r.hits <= |r.bullets| <= |bs| &&
      multiset(r.enemies) <= multiset(es) &&
      multiset(r.bullets) <= multiset(bs) &&
      forall e :: e in multiset(es) - multiset(r.enemies) ==> HitBySome(bs, e)
    decreases n - i
  {
    if n <= i {
    } else if i < |bs| {
      HitPassAccounting(bs[i], i, bs, es, 0, |es|);
      var r1 := HitPass(bs[i], i, bs, es, 0, |es|);
      CollisionPassAccounting(r1.bullets, r1.enemies, i + 1, n);
      var r2 := CollisionPass(r1.bullets, r1.enemies, i + 1, n);
      forall e | e in multiset(es) - multiset(r2.enemies)
        ensures HitBySome(bs, e)
      {
        if e in multiset(es) - multiset(r1.enemies) {
          assert IsColliding(bs[i].Box(), e.Box());
        } else {
          assert e in multiset(r1.enemies) - multiset(r2.enemies);
          var c :| c in r1.bullets && IsColliding(c.Box(), e.Box());
          assert c in multiset(r1.bullets);
        }
      }
    } else {
      CollisionPassAccounting(bs, es, i + 1, n);
    }
  }

  /** `checkCollisions` never lowers the score (hits is a count), removes
      exactly one enemy per overlap found, and every enemy it removes
      overlapped some bullet. */
  lemma CollisionsAccounting(bs: seq<Bullet>, es: seq<EnemyState>)
    ensures var r := Collisions(bs, es);
      |es| - |r.enemies| == r.hits &&
      |bs| - |r.bullets| <= r.hits &&
      multiset(r.enemies) <= multiset(es) &&
      multiset(r.bullets) <= multiset(bs) &&
      forall e :: e in multiset(es) - multiset(r.enemies) ==> HitBySome(bs, e)
  {
    CollisionPassAccounting(bs, es, 0, |bs|);
  }

  /** The inner loop finds nothing exactly when the bullet overlaps none of
      the enemies it visits, and then it changes nothing. */
  lemma {:induction false} HitPassNoHit(b: Bullet, i: nat, bs: seq<Bullet>, es: seq<EnemyState>, j: nat, n: nat)
    ensures HitPass(b, i, bs, es, j, n).hits == 0 <==>
      forall k :: j <= k < n && k < |es| ==> !IsColliding(b.Box(), es[k].Box())
    ensures HitPass(b, i, bs, es, j, n).hits == 0 ==> HitPass(b, i, bs, es, j, n) == Outcome(bs, es, 0)
    decreases n - j
  {
    if n <= j {
    } else if j < |es| && IsColliding(b.Box(), es[j].Box()) {
    } else {
      HitPassNoHit(b, i, bs, es, j + 1, n);
    }
  }

  /** The outer loop finds nothing exactly when no bullet it visits overlaps
      any enemy, and then it changes nothing. */
  lemma {:induction false} CollisionPassNoHit(bs: seq<Bullet>, es: seq<EnemyState>, i: nat, n: nat)
    ensures CollisionPass(bs, es, i, n).hits == 0 <==>
      forall k, m :: i <= k < n && k < |bs| && 0 <= m < |es| ==> !IsColliding(bs[k].Box(), es[m].Box())
    ensures CollisionPass(bs, es, i, n).hits == 0 ==> CollisionPass(bs, es, i, n) == Outcome(bs, es, 0)
    decreases n - i
  {
    if n <= i {
    } else if i < |bs| {
      HitPassNoHit(bs[i], i, bs, es, 0, |es|);
      var r1 := HitPass(bs[i], i, bs, es, 0, |es|);
      if r1.hits == 0 {
        CollisionPassNoHit(bs, es, i + 1, n);
      }
    } else {
      CollisionPassNoHit(bs, es, i + 1, n);
    }
  }

  /** `checkCollisions` scores nothing exactly when no bullet overlaps any
      enemy, and then both lists are left as they were. */
  lemma CollisionsNoHit(bs: seq<Bullet>, es: seq<EnemyState>)
    ensures Collisions(bs, es).hits == 0 <==>
      forall k, m :: 0 <= k < |bs| && 0 <= m < |es| ==> !IsColliding(bs[k].Box(), es[m].Box())
    ensures Collisions(bs, es).hits == 0 ==> Collisions(bs, es) == Outcome(bs, es, 0)
  {
    CollisionPassNoHit(bs, es, 0, |bs|);
  }

  /** One bullet overlapping the first and third of three enemies, and a
      second bullet far away: the first bullet destroys both enemies it
      overlaps (the middle enemy shifts into slot 0 and the third into slot
      1, where the inner loop finds it), and the second hit splices out the
      far-away bullet, which hit nothing. */
  lemma SecondHitRemovesNextBullet()
    ensures var shooter := Bullet(100.0, 100.0, 5.0, 10.0, 7.0);
      var bystander := Bullet(600.0, 300.0, 5.0, 10.0, 7.0);
      var near := EnemyState(90.0, 80.0);
      var far := EnemyState(300.0, 0.0);
      var alsoNear := EnemyState(80.0, 90.0);
      Collisions([shooter, bystander], [near, far, alsoNear]) == Outcome([], [far], 2)
  {
    var shooter := Bullet(100.0, 100.0, 5.0, 10.0, 7.0);
    var bystander := Bullet(600.0, 300.0, 5.0, 10.0, 7.0);
    var near := EnemyState(90.0, 80.0);
    var far := EnemyState(300.0, 0.0);
    var alsoNear := EnemyState(80.0, 90.0);
    var bs, es := [shooter, bystander], [near, far, alsoNear];
    assert RemoveAt(bs, 0) == [bystander];
    assert RemoveAt(es, 0) == [far, alsoNear];
    assert RemoveAt([bystander], 0) == [];
    assert RemoveAt([far, alsoNear], 1) == [far];
    assert HitPass(shooter, 0, [], [far], 2, 3) == Outcome([], [far], 0);
    assert HitPass(shooter, 0, [bystander], [far, alsoNear], 1, 3) == Outcome([], [far], 1);
    assert HitPass(shooter, 0, bs, es, 0, 3) == Outcome([], [far], 2);
    assert CollisionPass([], [far], 1, 2) == Outcome([], [far], 0);
  }
}
