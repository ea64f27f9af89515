/** The hit points and mana of a role, and when the buffs on it bring it down. */
module RoleVitals {
  import opened BuffTable

  datatype Vitals = Vitals(hp: int, mp: int, hpMax: int, mpMax: int)

  /** What an ended curse takes: the stated share of the damage it has collected. */
  function CurseHurt(b: Buff): int {
    Quotient(Remainder(b.p1, 100) * b.p2, 100)
  }

  /** Ending this buff kills a role with so many hit points left: a summoned role's time is up, or a
      curse takes what is left. */
  predicate Fells(b: Buff, hp: int) {
    b.kind == CALL || (b.Is(BYSKILL, ZuZhou) && hp <= CurseHurt(b))
  }

  /** Healing stops at the current maximum. */
  function Healed(b: Buff, hp: int, currHpMax: int): (r: int)
    ensures hp <= currHpMax ==> r <= currHpMax
    ensures hp > currHpMax ==> r == hp
    ensures b.p1 >= 0 && currHpMax >= 0 ==> r >= hp
  {
    if currHpMax <= hp then hp
    else
      var addHP := if b.relative then Quotient(b.p1 * currHpMax, 100) else b.p1;
      if hp + addHP > currHpMax then currHpMax else hp + addHP
  }

  /** What a heal is worth: so many percent of the maximum, rounded down, or so many hit points. */
  predicate IsShare(b: Buff, currHpMax: int, share: int) {
    if b.relative then 100 * share <= b.p1 * currHpMax < 100 * share + 100 else share == b.p1
  }

  /** A heal ends at that share above, but not above the maximum. */
  lemma HealAmount(b: Buff, hp: int, currHpMax: nat, share: int)
    requires b.p1 >= 0 && hp <= currHpMax && IsShare(b, currHpMax, share)
    ensures share >= 0
    ensures Healed(b, hp, currHpMax) == if hp + share <= currHpMax then hp + share else currHpMax
  {
    if b.relative {
      assert b.p1 * currHpMax >= 0;
    }
  }

  /** Raising a maximum by gain; hit points rise along with theirs, mana does not. */
  function Raised(b: Buff, gain: int, v: Vitals): Vitals {
    if b.kind == MAXHP then v.(hp := v.hp + gain, hpMax := v.hpMax + gain)
    else if b.kind == MAXMP then v.(mpMax := v.mpMax + gain)
    else v
  }

  /** Ending a buff: the two maxima are raised once more, a curse strikes, and a revival sets hit
      points and mana to the stated shares of the maxima. */
  function Ended(b: Buff, v: Vitals): Vitals {
    if b.Is(BYSKILL, FuHuo) then
      v.(hp := Quotient(v.hpMax * b.p1, 100), mp := Quotient(v.mpMax * b.p2, 100))
    else if b.Is(BYSKILL, ZuZhou) then v.(hp := v.hp - CurseHurt(b))
    else Raised(b, b.p1, v)
  }

  /** Casting a buff: only the maxima matter, and of an overridden buff only what it adds. */
  function CastOn(buffs: seq<Buff>, b: Buff, v: Vitals): Vitals {
    var i := FindSame(buffs, b);
    if Stacks(b) || i == |buffs| then Raised(b, b.p1, v)
    else if buffs[i].level < b.level then Raised(b, b.p1 - buffs[i].p1, v)
    else v
  }

  /** Cast, cast again or ended: a buff on the maximum leaves a role missing as many hit points as
      before, and no buff but a revival touches mana. */
  lemma MissingIsKept(buffs: seq<Buff>, b: Buff, v: Vitals)
    ensures var c, e := CastOn(buffs, b, v), Ended(b, v);
      && c.hpMax - c.hp == v.hpMax - v.hp && c.mp == v.mp
      && (!b.Is(BYSKILL, FuHuo) && !b.Is(BYSKILL, ZuZhou) ==> e.hpMax - e.hp == v.hpMax - v.hp)
      && (!b.Is(BYSKILL, FuHuo) ==> e.mp == v.mp)
  {
  }

  /** A pass runs the buff if its counter comes back to zero. */
  predicate Fires(b: Buff) {
    b.runTimeLimit > 0 && b.runCounter + 1 >= b.runTimeLimit
  }

  function TickedOn(b: Buff, v: Vitals): Vitals {
    if Fires(b) && b.kind == HP then v.(hp := Healed(b, v.hp, v.hpMax)) else v
  }

  /** The unmodified values, which Init goes back to. */
  datatype Base = Base(
    speedMod: int, attackHit: int, attackCrit: int, defenseArmor: int, hpMax: int, mpMax: int)

  /** The revival skill: its level (0 when the role has not learnt it), last use, and cool-down. */
  datatype Revival = Revival(level: int, lastUseTime: int, coolDown: int) {
    predicate Ready(now: int) {
      level > 0 && (lastUseTime == 0 || now - lastUseTime >= coolDown)
    }
  }

  function RevivalBuff(level: int, now: int): Buff {
    var share := if 1 <= level <= 6 then 10 * level else 0;
    Buff(BYSKILL, FuHuo, level, now, now + 20, false, false, share, share, 0, 0)
  }

  function BaseValue(base: Base, a: Attr): int {
    match a
    case SpeedMod => base.speedMod
    case AttackHit => base.attackHit
    case AttackCrit => base.attackCrit
    case DefenseArmor => base.defenseArmor
    case HpMax => base.hpMax
    case MpMax => base.mpMax
    case _ => 0
  }

  // -------- the loops over the table

  function PassedOn(buffs: seq<Buff>, now: int, v: Vitals): Vitals {
    if buffs == [] then v
    else
      var w := TickedOn(buffs[0], v);
      PassedOn(buffs[1..], now, if buffs[0].endTime <= now then Ended(Ticked(buffs[0]), w) else w)
  }

  /** A pass brings the role down when a buff that runs out does, with the hit points of that moment. */
  predicate PassFells(buffs: seq<Buff>, now: int, v: Vitals) {
    buffs != [] &&
      var w := TickedOn(buffs[0], v);
      if buffs[0].endTime <= now then
        Fells(Ticked(buffs[0]), w.hp) || PassFells(buffs[1..], now, Ended(Ticked(buffs[0]), w))
      else PassFells(buffs[1..], now, w)
  }

  function FilteredOn(buffs: seq<Buff>, drop: Buff -> bool, v: Vitals): Vitals {
    if buffs == [] then v else FilteredOn(buffs[1..], drop, if drop(buffs[0]) then Ended(buffs[0], v) else v)
  }

  predicate FilterFells(buffs: seq<Buff>, drop: Buff -> bool, v: Vitals) {
    buffs != [] &&
      if drop(buffs[0]) then Fells(buffs[0], v.hp) || FilterFells(buffs[1..], drop, Ended(buffs[0], v))
      else FilterFells(buffs[1..], drop, v)
  }

  // -------- what a fall finds

  /** Hit points and mana at the death of the role when this buff fells it: a summons leaves them, a
      curse takes the hit points that are left. */
  function AtDeath(b: Buff, v: Vitals): Vitals {
    if b.kind == CALL then v else v.(hp := 0)
  }

  /** The same when a pass brings the role down. */
  function PassAtFall(buffs: seq<Buff>, now: int, v: Vitals): Vitals {
    if buffs == [] then v
    else
      var w := TickedOn(buffs[0], v);
      if buffs[0].endTime > now then PassAtFall(buffs[1..], now, w)
      else if Fells(Ticked(buffs[0]), w.hp) then AtDeath(Ticked(buffs[0]), w)
      else PassAtFall(buffs[1..], now, Ended(Ticked(buffs[0]), w))
  }

  function FilterAtFall(buffs: seq<Buff>, drop: Buff -> bool, v: Vitals): Vitals {
    if buffs == [] then v
    else if !drop(buffs[0]) then FilterAtFall(buffs[1..], drop, v)
    else if Fells(buffs[0], v.hp) then AtDeath(buffs[0], v)
    else FilterAtFall(buffs[1..], drop, Ended(buffs[0], v))
  }

  /** What the buffs in the table add to an attribute when a pass brings the role down. */
  function PassHeld(buffs: seq<Buff>, now: int, v: Vitals, a: Attr): int {
    if buffs == [] then 0
    else
      var w := TickedOn(buffs[0], v);
      if buffs[0].endTime > now then Weight(buffs[0], a) + PassHeld(buffs[1..], now, w, a)
      else if Fells(Ticked(buffs[0]), w.hp) then Total(buffs, a)
      else PassHeld(buffs[1..], now, Ended(Ticked(buffs[0]), w), a)
  }

  function FilterHeld(buffs: seq<Buff>, drop: Buff -> bool, v: Vitals, a: Attr): int {
    if buffs == [] then 0
    else if !drop(buffs[0]) then Weight(buffs[0], a) + FilterHeld(buffs[1..], drop, v, a)
    else if Fells(buffs[0], v.hp) then Total(buffs, a)
    else FilterHeld(buffs[1..], drop, Ended(buffs[0], v), a)
  }

  // -------- runs

  function OpHeld(buffs: seq<Buff>, op: Op, v: Vitals, a: Attr): int {
    match op
    case Pass(now) => PassHeld(buffs, now, v, a)
    case Dispel(_) => FilterHeld(buffs, Dispellable, v, a)
    case _ => 0
  }

  function OpAtFall(buffs: seq<Buff>, op: Op, v: Vitals): Vitals {
    match op
    case Pass(now) => PassAtFall(buffs, now, v)
    case Dispel(_) => FilterAtFall(buffs, Dispellable, v)
    case _ => v
  }

  /** Hit points and mana at the death of the role when a run brings it down. */
  function VitalsAtFall(buffs: seq<Buff>, ops: seq<Op>, v: Vitals): Vitals
    decreases |ops|
  {
    if ops == [] then v
    else if OpFells(buffs, ops[0], v) then OpAtFall(buffs, ops[0], v)
    else VitalsAtFall(TableAfter(buffs, ops[0]), ops[1..], VitalsAfter(buffs, ops[0], v))
  }

  /** What the buffs in the table add to an attribute when a run brings the role down. */
  function HeldAtFall(buffs: seq<Buff>, ops: seq<Op>, v: Vitals, a: Attr): int
    decreases |ops|
  {
    if ops == [] then 0
    else if OpFells(buffs, ops[0], v) then OpHeld(buffs, ops[0], v, a)
    else HeldAtFall(TableAfter(buffs, ops[0]), ops[1..], VitalsAfter(buffs, ops[0], v), a)
  }

  function VitalsAfter(buffs: seq<Buff>, op: Op, v: Vitals): Vitals {
    match op
    case Cast(b, _) => CastOn(buffs, b, v)
    case Pass(now) => PassedOn(buffs, now, v)
    case Dispel(_) => FilteredOn(buffs, Dispellable, v)
    case Interrupt(_) => v
  }

  predicate OpFells(buffs: seq<Buff>, op: Op, v: Vitals) {
    match op
    case Cast(_, _) => false
    case Pass(now) => PassFells(buffs, now, v)
    case Dispel(_) => FilterFells(buffs, Dispellable, v)
    case Interrupt(_) => false
  }

  function TimeOf(op: Op): int {
    match op
    case Cast(_, castAt) => castAt
    case Pass(now) => now
    case Dispel(dispelAt) => dispelAt
    case Interrupt(interruptAt) => interruptAt
  }

  /** The first operation of a run that brings the role down, or the length of the run. */
  function FallsAt(buffs: seq<Buff>, ops: seq<Op>, v: Vitals): (i: nat)
    ensures i <= |ops|
    decreases |ops|
  {
    if ops == [] || OpFells(buffs, ops[0], v) then 0
    else 1 + FallsAt(TableAfter(buffs, ops[0]), ops[1..], VitalsAfter(buffs, ops[0], v))
  }

  function VitalsRun(buffs: seq<Buff>, ops: seq<Op>, v: Vitals): Vitals
    decreases |ops|
  {
    if ops == [] then v else VitalsRun(TableAfter(buffs, ops[0]), ops[1..], VitalsAfter(buffs, ops[0], v))
  }

  /** Interrupting casts costs a role nothing. */
  lemma {:induction false} InterruptsAreHarmless(buffs: seq<Buff>, v: Vitals)
    ensures FilteredOn(buffs, BreakableCast, v) == v && !FilterFells(buffs, BreakableCast, v)
  {
    if buffs != [] {
      InterruptsAreHarmless(buffs[1..], v);
    }
  }

  // -------- the loops, one buff at a time

  lemma PassStepVitals(buffs: seq<Buff>, i: int, now: int, v: Vitals)
    requires 0 <= i < |buffs|
    ensures var b := Ticked(buffs[i]);
      var w := TickedOn(buffs[i], v);
      && (b.endTime <= now ==>
            && PassedOn(buffs[i..], now, v) == PassedOn(buffs[i + 1..], now, Ended(b, w))
            && (PassFells(buffs[i..], now, v) <==> Fells(b, w.hp) || PassFells(buffs[i + 1..], now, Ended(b, w))))
      && (b.endTime > now ==>
            && PassedOn(buffs[i..], now, v) == PassedOn(buffs[i + 1..], now, w)
            && (PassFells(buffs[i..], now, v) <==> PassFells(buffs[i + 1..], now, w)))
  {
    assert buffs[i..][1..] == buffs[i + 1..];
  }

  lemma FilterStepVitals(buffs: seq<Buff>, i: int, drop: Buff -> bool, v: Vitals)
    requires 0 <= i < |buffs|
    ensures var b := buffs[i];
      && (drop(b) ==>
            && FilteredOn(buffs[i..], drop, v) == FilteredOn(buffs[i + 1..], drop, Ended(b, v))
            && (FilterFells(buffs[i..], drop, v) <==> Fells(b, v.hp) || FilterFells(buffs[i + 1..], drop, Ended(b, v))))
      && (!drop(b) ==>
            && FilteredOn(buffs[i..], drop, v) == FilteredOn(buffs[i + 1..], drop, v)
            && (FilterFells(buffs[i..], drop, v) <==> FilterFells(buffs[i + 1..], drop, v)))
  {
    assert buffs[i..][1..] == buffs[i + 1..];
  }

  lemma PassStepFall(buffs: seq<Buff>, i: int, now: int, v: Vitals)
    requires 0 <= i < |buffs|
    ensures var b := Ticked(buffs[i]);
      var w := TickedOn(buffs[i], v);
      PassAtFall(buffs[i..], now, v) ==
        if b.endTime > now then PassAtFall(buffs[i + 1..], now, w)
        else if Fells(b, w.hp) then AtDeath(b, w)
        else PassAtFall(buffs[i + 1..], now, Ended(b, w))
  {
    assert buffs[i..][1..] == buffs[i + 1..];
  }

  lemma FilterStepFall(buffs: seq<Buff>, i: int, drop: Buff -> bool, v: Vitals)
    requires 0 <= i < |buffs|
    ensures FilterAtFall(buffs[i..], drop, v) ==
      if !drop(buffs[i]) then FilterAtFall(buffs[i + 1..], drop, v)
      else if Fells(buffs[i], v.hp) then AtDeath(buffs[i], v)
      else FilterAtFall(buffs[i + 1..], drop, Ended(buffs[i], v))
  {
    assert buffs[i..][1..] == buffs[i + 1..];
  }

  lemma TotalOfNext(buffs: seq<Buff>, i: int, a: Attr)
    requires 0 <= i < |buffs|
    ensures Total(buffs[..i + 1], a) == Total(buffs[..i], a) + Weight(buffs[i], a)
    ensures Total(buffs, a) == Total(buffs[..i], a) + Total(buffs[i..], a)
  {
    assert buffs[..i + 1] == buffs[..i] + [buffs[i]];
    TotalOfConcat(buffs[..i], [buffs[i]], a);
    assert [buffs[i]][1..] == [];
    assert buffs == buffs[..i] + buffs[i..];
    TotalOfConcat(buffs[..i], buffs[i..], a);
  }

  /** Going on from index i, the sum before i and what is held from i on stay the same together. */
  lemma PassStepHeld(buffs: seq<Buff>, i: int, now: int, v: Vitals, a: Attr)
    requires 0 <= i < |buffs|
    ensures var b := Ticked(buffs[i]);
      var w := TickedOn(buffs[i], v);
      var ticked := buffs[i := b];
      && Total(buffs, a) == Total(buffs[..i], a) + Total(buffs[i..], a)
      && (b.endTime > now ==>
            Total(ticked[..i + 1], a) + PassHeld(ticked[i + 1..], now, w, a) ==
              Total(buffs[..i], a) + PassHeld(buffs[i..], now, v, a))
      && (b.endTime <= now && !Fells(b, w.hp) ==>
            PassHeld(buffs[i + 1..], now, Ended(b, w), a) == PassHeld(buffs[i..], now, v, a))
      && (b.endTime <= now && Fells(b, w.hp) ==> PassHeld(buffs[i..], now, v, a) == Total(buffs[i..], a))
  {
    var ticked := buffs[i := Ticked(buffs[i])];
    assert buffs[i..][1..] == buffs[i + 1..];
    assert ticked[i + 1..] == buffs[i + 1..] && ticked[..i] == buffs[..i];
    TotalOfNext(buffs, i, a);
    TotalOfNext(ticked, i, a);
    WeightIgnoresTicks(buffs[i], a);
  }

  lemma FilterStepHeld(buffs: seq<Buff>, i: int, drop: Buff -> bool, v: Vitals, a: Attr)
    requires 0 <= i < |buffs|
    ensures var b := buffs[i];
      && Total(buffs, a) == Total(buffs[..i], a) + Total(buffs[i..], a)
      && (!drop(b) ==>
            Total(buffs[..i + 1], a) + FilterHeld(buffs[i + 1..], drop, v, a) ==
              Total(buffs[..i], a) + FilterHeld(buffs[i..], drop, v, a))
      && (drop(b) && !Fells(b, v.hp) ==>
            FilterHeld(buffs[i + 1..], drop, Ended(b, v), a) == FilterHeld(buffs[i..], drop, v, a))
      && (drop(b) && Fells(b, v.hp) ==> FilterHeld(buffs[i..], drop, v, a) == Total(buffs[i..], a))
  {
    assert buffs[i..][1..] == buffs[i + 1..];
    TotalOfNext(buffs, i, a);
  }
}
