/** What the buffs of the single skills are worth to the role that carries them. */
module Skills {
  import opened BuffTable
  import opened BuffRuns

  /** A level's entry in a table; other levels count as the first. */
  function ByLevel(table: seq<nat>, level: int): nat
    requires |table| == 6
  {
    if 1 <= level <= 6 then table[level - 1] else table[0]
  }

  /** So many percent of a base value, rounded down. */
  ghost predicate IsPercent(share: int, whole: nat, percent: nat) {
    100 * share <= whole * percent < 100 * share + 100
  }

  lemma ShareIsPercent(whole: nat, percent: nat)
    ensures IsPercent(Quotient(whole * percent, 100), whole, percent)
  {
    assert whole * percent >= 0;
  }

  /** The buff raises one attribute by so much and touches no other. */
  ghost predicate OnlyRaises(b: Buff, raised: Attr, amount: int) {
    forall a :: Weight(b, a) == if a == raised then amount else 0
  }

  ghost predicate Counts(b: Buff, counted: set<Attr>) {
    forall a :: Weight(b, a) == if a in counted then 1 else 0
  }

  // -------- skills that raise or lower a value

  const FIVES := [5, 10, 15, 20, 25, 30]
  const ARCHERY := [2, 4, 6, 8, 10, 15]
  const WITCHERY := [10, 15, 20, 25, 30, 35]
  const SHEEP_TIME := [20, 25, 30, 35, 40, 50]
  const BLOOD := [5, 7, 10, 12, 15, 20]

  function Roar(level: int, attackHigh: nat, now: int): Buff {
    Buff(ATTACKPOWER, PaoXiao, level, now, now + 100, true, true,
         Quotient(attackHigh * ByLevel(FIVES, level), 100), 0, 0, 0)
  }

  lemma RoarRaisesAttack(level: int, attackHigh: nat, now: int)
    ensures var b := Roar(level, attackHigh, now);
      OnlyRaises(b, AttackPowerAdd, b.p1) && IsPercent(b.p1, attackHigh, ByLevel(FIVES, level))
  {
    ShareIsPercent(attackHigh, ByLevel(FIVES, level));
  }

  const NuHou := 221

  function Howl(level: int, armor: nat, now: int): Buff {
    Buff(ARMOR, NuHou, level, now, now + 100, true, true, Quotient(armor * ByLevel(FIVES, level), 100), 0, 0, 0)
  }

  lemma HowlRaisesArmor(level: int, armor: nat, now: int)
    ensures var b := Howl(level, armor, now);
      OnlyRaises(b, DefenseArmor, b.p1) && IsPercent(b.p1, armor, ByLevel(FIVES, level))
  {
    ShareIsPercent(armor, ByLevel(FIVES, level));
  }

  const QuSan := 215

  /** What the dispel skill puts on an opponent. */
  function Slowed(level: int, speed: nat, now: int): Buff {
    Buff(MOVESPEED, QuSan, level, now, now + 20, false, true, -Quotient(speed * 50, 100), 0, 0, 0)
  }

  lemma SlowedIsHalved(level: int, speed: nat, now: int)
    ensures var b := Slowed(level, speed, now);
      OnlyRaises(b, SpeedMod, b.p1) && IsPercent(-b.p1, speed, 50)
  {
    ShareIsPercent(speed, 50);
  }

  function BloodRageOf(level: int, hpMax: nat, now: int): Buff {
    Buff(MAXHP, XueXing, level, now, now + 100, true, true, Quotient(hpMax * ByLevel(BLOOD, level), 100), 0, 0, 0)
  }

  lemma BloodRageRaisesMaximum(level: int, hpMax: nat, now: int)
    ensures var b := BloodRageOf(level, hpMax, now);
      OnlyRaises(b, HpMax, b.p1) && IsPercent(b.p1, hpMax, ByLevel(BLOOD, level))
    ensures BloodRageOf(1, 1000, 0) == BloodRage
  {
    ShareIsPercent(hpMax, ByLevel(BLOOD, level));
  }

  function ArchersGift(level: int, crit: nat, hit: nat, now: int): Buff {
    Buff(BYSKILL, SheShouTianFu, level, now, now + if level == 6 then 100 else 80, true, false,
         Quotient(crit * ByLevel(ARCHERY, level), 100), Quotient(hit * ByLevel(ARCHERY, level), 100), 0, 0)
  }

  /** Crit by the crit share, hit by the hit share, and nothing else. */
  lemma ArchersGiftRaisesBoth(level: int, crit: nat, hit: nat, now: int)
    ensures var b := ArchersGift(level, crit, hit, now);
      && (forall a :: a != AttackCrit && a != AttackHit ==> Weight(b, a) == 0)
      && IsPercent(Weight(b, AttackCrit), crit, ByLevel(ARCHERY, level))
      && IsPercent(Weight(b, AttackHit), hit, ByLevel(ARCHERY, level))
  {
    ShareIsPercent(crit, ByLevel(ARCHERY, level));
    ShareIsPercent(hit, ByLevel(ARCHERY, level));
  }

  function Sheep(level: int, speed: nat, now: int): Buff {
    Buff(BYSKILL, YaoShu, level, now, now + ByLevel(SHEEP_TIME, level), true, true,
         -Quotient(speed * ByLevel(WITCHERY, level), 100), 0, 0, 0)
  }

  /** A bewitched role is slower, and can neither strike nor cast. */
  lemma SheepIsHarmless(level: int, speed: nat, now: int)
    ensures var b := Sheep(level, speed, now);
      && (forall a :: a != SpeedMod ==> Weight(b, a) == if a in {PhysicalLimit, MagicLimit} then 1 else 0)
      && IsPercent(-Weight(b, SpeedMod), speed, ByLevel(WITCHERY, level))
  {
    ShareIsPercent(speed, ByLevel(WITCHERY, level));
  }

  const MIST_SLOW := [20, 25, 30, 35, 40, 45]

  /** The mist works on the values of the moment, not on the base values. */
  function Mist(level: int, speed: nat, hit: nat, now: int): Buff {
    Buff(BYSKILL, ZuiJiuYunWu, level, now, now + 60, true, true,
         -Quotient(speed * ByLevel(MIST_SLOW, level), 100), -Quotient(hit * ByLevel(FIVES, level), 100), 0, 0)
  }

  /** It takes a share of the speed and a share of the aim. */
  lemma MistSlowsAndBlinds(level: int, speed: nat, hit: nat, now: int)
    ensures var b := Mist(level, speed, hit, now);
      && (forall a :: a != SpeedMod && a != AttackHit ==> Weight(b, a) == 0)
      && IsPercent(-Weight(b, SpeedMod), speed, ByLevel(MIST_SLOW, level))
      && IsPercent(-Weight(b, AttackHit), hit, ByLevel(FIVES, level))
  {
    ShareIsPercent(speed, ByLevel(MIST_SLOW, level));
    ShareIsPercent(hit, ByLevel(FIVES, level));
  }

  // -------- skills that bind or shield

  /** A stun binds hands, feet and tongue, a root the feet, a silence the tongue. */
  lemma ControlsBind(b: Buff)
    ensures b.kind == XUANYUN ==> Counts(b, {MoveLimit, PhysicalLimit, MagicLimit})
    ensures b.kind == NOMOVE ==> Counts(b, {MoveLimit})
    ensures b.kind == NOSKILL ==> Counts(b, {MagicLimit})
  {
  }

  /** Both charges and the wait for revival make untouchable and helpless; the blade storm keeps its
      caster walking. */
  lemma CastsBind(b: Buff)
    ensures b.Is(CASTSKILL, WuDiZhan) || b.Is(CASTSKILL, ChongFeng) || b.Is(BYSKILL, FuHuo) ==>
      Counts(b, {MoveLimit, PhysicalLimit, MagicLimit, PhysicalExempt, ExemptAll})
    ensures b.Is(CASTSKILL, JianRenFengBao) ==> Counts(b, {PhysicalLimit, MagicLimit, ExemptBad})
  {
  }

  // -------- casting a skill again

  /** What a cast makes of a buff of the same kind and skill is decided by the levels alone: a weaker one
      is ignored, an equal one renews the time, and a stronger one counts as if it stood alone, with the
      stored level. Nothing else in the table changes. */
  lemma LevelsDecide(buffs: seq<Buff>, b: Buff)
    requires !Stacks(b) && FindSame(buffs, b) < |buffs|
    ensures var i, after := FindSame(buffs, b), Added(buffs, b);
      && |after| == |buffs| && after[i].level == buffs[i].level
      && (forall j :: 0 <= j < |buffs| && j != i ==> after[j] == buffs[j])
      && (b.level < buffs[i].level ==> after == buffs)
      && (b.level >= buffs[i].level ==> after[i].endTime == b.endTime)
      && (b.level == buffs[i].level ==> after[i] == buffs[i].(endTime := b.endTime))
      && (b.level > buffs[i].level ==> forall a :: Weight(after[i], a) == Weight(b, a))
  {
    var i := FindSame(buffs, b);
    if b.level > buffs[i].level {
      OverrideCounts(buffs[i], b);
    }
  }

  lemma OverrideCounts(stored: Buff, b: Buff)
    requires Same(stored, b)
    ensures forall a :: Weight(Overridden(stored, b), a) == Weight(b, a)
  {
  }

  /** Of shields, curses and the counter-whirl: strength is taken over, and what a shield has taken or a
      curse collected stays, while the whirl starts from the new charge. */
  lemma OverrideKeepsTaken(stored: Buff, b: Buff)
    requires Same(stored, b) && b.kind == BYSKILL
    ensures b.parentSkill in {WuGuangZhiDun, ZuZhou, FanJiLuoXuan} ==> Overridden(stored, b).p1 == b.p1
    ensures b.parentSkill in {WuGuangZhiDun, ZuZhou} ==> Overridden(stored, b).p2 == stored.p2
    ensures b.parentSkill == FanJiLuoXuan ==> Overridden(stored, b).p2 == b.p2
  {
  }
}
