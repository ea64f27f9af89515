/** CalculateBullets: homing projectiles. */
module Bullets {
  import opened Grid

  const BULLET_TYPE_ATK_CLOSE := 1
  /** A bullet this close on both axes hits. */
  const REACH := 3

  datatype Bullet = Bullet(kind: int, startTime: nat, pos: Pos, speed: int, passive: int)
  datatype Target = Target(live: bool, pos: Pos)
  datatype Fate = Lost | Hit | Flying(b: Bullet)

  function Towards(from: int, to: int, speed: int): int {
    if to > from then from + speed else if to < from then from - speed else from
  }

  predicate InReach(b: Bullet, t: Target) {
    Chebyshev(b.pos, t.pos) <= REACH
  }

  /** What one pass does to a bullet. */
  function FateOf(b: Bullet, t: Target): Fate {
    if !t.live then Lost
    else if b.startTime > 0 then Flying(b.(startTime := b.startTime - 1))
    else if b.kind == BULLET_TYPE_ATK_CLOSE || InReach(b, t) then Hit
    else Flying(b.(pos := Pos(Towards(b.pos.x, t.pos.x, b.speed), Towards(b.pos.y, t.pos.y, b.speed))))
  }

  ghost predicate Aimed(bullets: seq<Bullet>, targets: map<int, Target>) {
    forall i :: 0 <= i < |bullets| ==> bullets[i].passive in targets
  }

  /** What a hit does to the roles, its own target and others: it may kill, move or revive them. */
  type Effect = (map<int, Target>, Bullet) -> map<int, Target>

  /** No role leaves the battle. */
  ghost predicate Lasting(effect: Effect) {
    forall targets: map<int, Target>, b: Bullet :: targets.Keys <= effect(targets, b).Keys
  }

  function TargetsAfter(b: Bullet, targets: map<int, Target>, effect: Effect): map<int, Target>
    requires b.passive in targets
  {
    if FateOf(b, targets[b.passive]) == Hit then effect(targets, b) else targets
  }

  /** The bullets still in the air after a pass, and the ones that hit, both in list order. Later
      bullets meet the roles as the hits of earlier ones have left them. */
  function StillFlying(bullets: seq<Bullet>, targets: map<int, Target>, effect: Effect): seq<Bullet>
    requires Aimed(bullets, targets) && Lasting(effect)
  {
    if bullets == [] then []
    else
      var f := FateOf(bullets[0], targets[bullets[0].passive]);
      (if f.Flying? then [f.b] else []) +
      StillFlying(bullets[1..], TargetsAfter(bullets[0], targets, effect), effect)
  }

  function Hitting(bullets: seq<Bullet>, targets: map<int, Target>, effect: Effect): seq<Bullet>
    requires Aimed(bullets, targets) && Lasting(effect)
  {
    if bullets == [] then []
    else
      (if FateOf(bullets[0], targets[bullets[0].passive]) == Hit then [bullets[0]] else []) +
      Hitting(bullets[1..], TargetsAfter(bullets[0], targets, effect), effect)
  }

  /** What the hits do one after the other. */
  function AllHits(hits: seq<Bullet>, targets: map<int, Target>, effect: Effect): map<int, Target> {
    if hits == [] then targets else AllHits(hits[1..], effect(targets, hits[0]), effect)
  }

  lemma PassStep(bullets: seq<Bullet>, pos: int, targets: map<int, Target>, effect: Effect)
    requires 0 <= pos < |bullets| && Aimed(bullets[pos..], targets) && Lasting(effect)
    ensures bullets[pos] == bullets[pos..][0]
    ensures (bullets[..pos] + bullets[pos + 1..])[pos..] == bullets[pos + 1..]
    ensures var f := FateOf(bullets[pos], targets[bullets[pos].passive]);
      var next := TargetsAfter(bullets[pos], targets, effect);
      && Aimed(bullets[pos + 1..], next)
      && StillFlying(bullets[pos..], targets, effect) ==
           (if f.Flying? then [f.b] else []) + StillFlying(bullets[pos + 1..], next, effect)
      && Hitting(bullets[pos..], targets, effect) ==
           (if f == Hit then [bullets[pos]] else []) + Hitting(bullets[pos + 1..], next, effect)
  {
    assert bullets[pos..][1..] == bullets[pos + 1..];
    assert Aimed(bullets[pos..][1..], targets);
  }

  lemma {:induction false} OneMoreHit(hits: seq<Bullet>, b: Bullet, targets: map<int, Target>, effect: Effect)
    ensures AllHits(hits + [b], targets, effect) == effect(AllHits(hits, targets, effect), b)
  {
    if hits == [] {
      assert hits + [b] == [b];
      assert [b][1..] == [];
    } else {
      assert (hits + [b])[1..] == hits[1..] + [b];
      OneMoreHit(hits[1..], b, effect(targets, hits[0]), effect);
    }
  }

  /** Half-way through a pass: what is left of it gives the rest of what the whole pass gives. */
  ghost predicate Passing(start: seq<Bullet>, targets: map<int, Target>, effect: Effect,
                          bullets: seq<Bullet>, pos: int, now: map<int, Target>, hits: seq<Bullet>)
    requires Aimed(start, targets) && Lasting(effect)
  {
    && 0 <= pos <= |bullets| && Aimed(bullets[pos..], now)
    && bullets[..pos] + StillFlying(bullets[pos..], now, effect) == StillFlying(start, targets, effect)
    && hits + Hitting(bullets[pos..], now, effect) == Hitting(start, targets, effect)
    && now == AllHits(hits, targets, effect)
  }

  lemma BulletFlies(start: seq<Bullet>, targets: map<int, Target>, effect: Effect,
                    bullets: seq<Bullet>, pos: int, now: map<int, Target>, hits: seq<Bullet>, c: Bullet)
    requires Aimed(start, targets) && Lasting(effect)
    requires Passing(start, targets, effect, bullets, pos, now, hits) && pos < |bullets|
    requires bullets[pos..][0] == bullets[pos] && FateOf(bullets[pos], now[bullets[pos].passive]) == Flying(c)
    ensures Passing(start, targets, effect, bullets[pos := c], pos + 1, now, hits)
  {
    PassStep(bullets, pos, now, effect);
    assert bullets[pos := c][pos + 1..] == bullets[pos + 1..];
    assert bullets[pos := c][..pos + 1] == bullets[..pos] + [c];
  }

  lemma BulletGoes(start: seq<Bullet>, targets: map<int, Target>, effect: Effect,
                   bullets: seq<Bullet>, pos: int, now: map<int, Target>, hits: seq<Bullet>)
    requires Aimed(start, targets) && Lasting(effect)
    requires Passing(start, targets, effect, bullets, pos, now, hits) && pos < |bullets|
    requires bullets[pos..][0] == bullets[pos] && !FateOf(bullets[pos], now[bullets[pos].passive]).Flying?
    ensures Passing(start, targets, effect, bullets[..pos] + bullets[pos + 1..], pos,
                    TargetsAfter(bullets[pos], now, effect),
                    if FateOf(bullets[pos], now[bullets[pos].passive]) == Hit then hits + [bullets[pos]] else hits)
  {
    PassStep(bullets, pos, now, effect);
    assert (bullets[..pos] + bullets[pos + 1..])[..pos] == bullets[..pos];
    OneMoreHit(hits, bullets[pos], targets, effect);
  }

  class BulletList {
    var bullets: seq<Bullet>

    /** The body of the loop, for one bullet. */
    method Fly(bullet: Bullet, t: Target) returns (f: Fate)
      ensures f == FateOf(bullet, t)
    {
      var b := bullet;
      if !t.live {
        return Lost;
      }
      if b.startTime > 0 {
        return Flying(b.(startTime := b.startTime - 1));
      }
      if b.kind == BULLET_TYPE_ATK_CLOSE {
        return Hit;
      }
      if Abs(t.pos.x - b.pos.x) > REACH || Abs(t.pos.y - b.pos.y) > REACH {
        if t.pos.x > b.pos.x {
          b := b.(pos := Pos(b.pos.x + b.speed, b.pos.y));
        } else if t.pos.x < b.pos.x {
          b := b.(pos := Pos(b.pos.x - b.speed, b.pos.y));
        }
        if t.pos.y > b.pos.y {
          b := b.(pos := Pos(b.pos.x, b.pos.y + b.speed));
        } else if t.pos.y < b.pos.y {
          b := b.(pos := Pos(b.pos.x, b.pos.y - b.speed));
        }
        return Flying(b);
      }
      return Hit;
    }

    /** One pass, erasing while iterating. What a hit does is a parameter. */
    method CalculateBullets(targets: map<int, Target>, effect: Effect)
      returns (hits: seq<Bullet>, targets': map<int, Target>)
      requires Aimed(bullets, targets) && Lasting(effect)
      modifies this
      ensures bullets == StillFlying(old(bullets), targets, effect)
      ensures hits == Hitting(old(bullets), targets, effect)
      ensures targets' == AllHits(hits, targets, effect)
    {
      hits, targets' := [], targets;
      var pos := 0;
      assert bullets[0..] == bullets;
      while pos < |bullets|
        invariant Passing(old(bullets), targets, effect, bullets, pos, targets', hits)
        decreases |bullets| - pos
      {
        assert bullets[pos..][0] == bullets[pos];
        var b := bullets[pos];
        var f := Fly(b, targets'[b.passive]);
        match f {
        case Flying(c) =>
          BulletFlies(old(bullets), targets, effect, bullets, pos, targets', hits, c);
          bullets := bullets[pos := c];
          pos := pos + 1;
        case _ =>
          BulletGoes(old(bullets), targets, effect, bullets, pos, targets', hits);
          if f == Hit {
            hits := hits + [b];
            targets' := effect(targets', b);
          }
          bullets := bullets[..pos] + bullets[pos + 1..];
        }
      }
      assert bullets[..pos] == bullets && bullets[pos..] == [];
    }
  }

  // -------- when a bullet arrives

  /** The bullet hits on exactly the n-th pass, with the target staying where it is. */
  ghost predicate HitsOn(b: Bullet, t: Target, n: nat)
    decreases n
  {
    n > 0 && match FateOf(b, t)
      case Lost => false
      case Hit => n == 1
      case Flying(c) => HitsOn(c, t, n - 1)
  }

  /** Steps until a gap is within reach. */
  function StepsFor(gap: nat, speed: nat): nat
    requires speed > 0
  {
    if gap <= REACH then 0 else (gap - REACH + speed - 1) / speed
  }

  function Steps(b: Bullet, t: Target): nat
    requires b.speed > 0
  {
    Max(StepsFor(Abs(t.pos.x - b.pos.x), b.speed), StepsFor(Abs(t.pos.y - b.pos.y), b.speed))
  }

  lemma OneStepLess(gap: nat, speed: nat)
    requires 1 <= speed <= REACH + 1
    ensures gap > REACH ==> gap >= speed && StepsFor(gap - speed, speed) == StepsFor(gap, speed) - 1
    ensures gap <= REACH ==> Abs(gap - speed) <= REACH || gap == 0
    ensures gap > REACH <==> StepsFor(gap, speed) > 0
  {
    if gap > REACH {
      assert gap - speed - REACH + speed - 1 + speed == gap - REACH + speed - 1;
      assert (gap - REACH + speed - 1) / speed == (gap - REACH - 1) / speed + 1 by {
        QuotientStep(gap - REACH - 1, speed);
      }
      if gap - speed <= REACH {
        SmallQuotient(gap - REACH - 1, speed);
      }
    }
  }

  lemma QuotientStep(n: nat, d: nat)
    requires 1 <= d <= REACH + 1
    ensures (n + d) / d == n / d + 1
  {
    if d == 1 {
    } else if d == 2 {
      assert (n + 2) / 2 == n / 2 + 1;
    } else if d == 3 {
      assert (n + 3) / 3 == n / 3 + 1;
    } else {
      assert (n + 4) / 4 == n / 4 + 1;
    }
  }

  lemma SmallQuotient(n: nat, d: nat)
    requires n < d
    ensures n / d == 0
  {
  }

  lemma StepsDrop(b: Bullet, t: Target)
    requires t.live && b.startTime == 0 && b.kind != BULLET_TYPE_ATK_CLOSE && 1 <= b.speed <= REACH + 1
    ensures InReach(b, t) <==> Steps(b, t) == 0
    ensures !InReach(b, t) ==> Steps(FateOf(b, t).b, t) == Steps(b, t) - 1
  {
    var gx, gy := Abs(t.pos.x - b.pos.x), Abs(t.pos.y - b.pos.y);
    OneStepLess(gx, b.speed);
    OneStepLess(gy, b.speed);
    if !InReach(b, t) {
      var c := FateOf(b, t).b;
      assert Abs(t.pos.x - c.pos.x) == if gx == 0 then 0 else Abs(gx - b.speed);
      assert Abs(t.pos.y - c.pos.y) == if gy == 0 then 0 else Abs(gy - b.speed);
    }
  }

  /** A bullet with speed 1 to 4 hits a target that stays put, and exactly when: after its waiting
      time, and as many passes as the larger gap needs to come within reach. */
  lemma {:induction false} HomingHits(b: Bullet, t: Target)
    requires t.live && b.kind != BULLET_TYPE_ATK_CLOSE && 1 <= b.speed <= REACH + 1
    ensures HitsOn(b, t, b.startTime + Steps(b, t) + 1)
    decreases b.startTime, Steps(b, t)
  {
    if b.startTime > 0 {
      HomingHits(b.(startTime := b.startTime - 1), t);
    } else {
      StepsDrop(b, t);
      if !InReach(b, t) {
        HomingHits(FateOf(b, t).b, t);
      }
    }
  }

  /** A close attack hits from any distance, on the pass after its waiting time. */
  lemma {:induction false} CloseAttackHits(b: Bullet, t: Target)
    requires t.live && b.kind == BULLET_TYPE_ATK_CLOSE
    ensures HitsOn(b, t, b.startTime + 1)
    decreases b.startTime
  {
    if b.startTime > 0 {
      CloseAttackHits(b.(startTime := b.startTime - 1), t);
    }
  }

  /** The roles as bullet i of a pass meets them. */
  function TargetsAt(bullets: seq<Bullet>, targets: map<int, Target>, effect: Effect, i: nat): map<int, Target>
    requires Aimed(bullets, targets) && Lasting(effect) && i <= |bullets|
  {
    if i == 0 then targets
    else TargetsAt(bullets[1..], TargetsAfter(bullets[0], targets, effect), effect, i - 1)
  }

  lemma {:induction false} StillAimed(bullets: seq<Bullet>, targets: map<int, Target>, effect: Effect, i: nat)
    requires Aimed(bullets, targets) && Lasting(effect) && i < |bullets|
    ensures bullets[i].passive in TargetsAt(bullets, targets, effect, i)
  {
    if i > 0 {
      StillAimed(bullets[1..], TargetsAfter(bullets[0], targets, effect), effect, i - 1);
    }
  }

  /** Hit number m of a pass is that of a bullet whose target is alive when its turn comes, and which
      has waited and is near enough or a close attack: no bullet hits a dead role. */
  lemma {:induction false} DeadAreSpared(bullets: seq<Bullet>, targets: map<int, Target>, effect: Effect, m: nat)
    returns (i: nat)
    requires Aimed(bullets, targets) && Lasting(effect) && m < |Hitting(bullets, targets, effect)|
    ensures i < |bullets| && bullets[i] == Hitting(bullets, targets, effect)[m]
    ensures bullets[i].passive in TargetsAt(bullets, targets, effect, i)
    ensures var t := TargetsAt(bullets, targets, effect, i)[bullets[i].passive];
      t.live && bullets[i].startTime == 0 && (bullets[i].kind == BULLET_TYPE_ATK_CLOSE || InReach(bullets[i], t))
  {
    var b, next := bullets[0], TargetsAfter(bullets[0], targets, effect);
    if FateOf(b, targets[b.passive]) == Hit {
      if m == 0 {
        i := 0;
      } else {
        i := DeadAreSpared(bullets[1..], next, effect, m - 1);
        i := i + 1;
      }
    } else {
      i := DeadAreSpared(bullets[1..], next, effect, m);
      i := i + 1;
    }
  }

  /** A bullet whose target is dead neither hits nor flies on. */
  lemma DeadTargetLosesBullet(b: Bullet, targets: map<int, Target>, effect: Effect)
    requires b.passive in targets && !targets[b.passive].live && Lasting(effect)
    ensures StillFlying([b], targets, effect) == [] && Hitting([b], targets, effect) == []
  {
    assert [b][1..] == [];
  }

  /** Beyond that range of speeds there is a place from which the bullet never arrives: it stands
      still, flies off, or keeps leaping over its target. */
  function Hopeless(speed: int): Pos {
    if 5 <= speed <= 7 then Pos(4, speed - 4) else Pos(4, 0)
  }

  ghost predicate Misses(b: Bullet) {
    var x, y := Abs(b.pos.x), Abs(b.pos.y);
    if b.speed <= 0 then x > REACH
    else if b.speed <= 7 then (x == 4 && y == b.speed - 4) || (x == b.speed - 4 && y == 4)
    else x == 4 || x == b.speed - 4
  }

  lemma {:induction false} HomelessNeverHits(b: Bullet, t: Target, n: nat)
    requires t.live && t.pos == Pos(0, 0) && b.kind != BULLET_TYPE_ATK_CLOSE
    requires !(1 <= b.speed <= REACH + 1) && Misses(b)
    ensures !HitsOn(b, t, n)
    decreases n
  {
    if n > 0 {
      assert !InReach(b, t);
      var c := FateOf(b, t).b;
      assert Misses(c);
      HomelessNeverHits(c, t, n - 1);
    }
  }

  ghost predicate Arrives(b: Bullet, t: Target) {
    exists n: nat :: HitsOn(b, t, n)
  }

  /** So a speed is safe from every position if and only if it lies between 1 and 4. */
  lemma SpeedIsSafeIff(kind: int, speed: int)
    requires kind != BULLET_TYPE_ATK_CLOSE
    ensures 1 <= speed <= REACH + 1 <==>
      (forall pos, t: Target :: t.live ==> Arrives(Bullet(kind, 0, pos, speed, 0), t))
  {
    if 1 <= speed <= REACH + 1 {
      forall pos, t: Target | t.live
        ensures Arrives(Bullet(kind, 0, pos, speed, 0), t)
      {
        HomingHits(Bullet(kind, 0, pos, speed, 0), t);
      }
    } else {
      var b, t := Bullet(kind, 0, Hopeless(speed), speed, 0), Target(true, Pos(0, 0));
      forall n: nat
        ensures !HitsOn(b, t, n)
      {
        HomelessNeverHits(b, t, n);
      }
      assert !Arrives(b, t);
    }
  }
}
