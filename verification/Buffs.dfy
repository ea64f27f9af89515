/** UpdataBuffer and its callers: the attributes a role carries are kept in step with its buffs. */
module Buffs {
  import opened BuffTable
  import opened RoleVitals
  import BuffRuns
  import opened Shield
  import opened Fights
  import opened ManaDrain

  const UPDATABUFFER_ADD := 1
  const UPDATABUFFER_DEL := -1

  /** The product with the update type, which is 1 or -1. */
  function Signed(i: int, updataType: int): int {
    if updataType == UPDATABUFFER_ADD then i else -i
  }

  /** The parts of the role's MoveAttr, PhysicalAttr and MagicAttr that buffs change. */
  datatype MoveMods = MoveMods(speedMod: int, limitCounter: int)
  datatype PhysicalAttr = PhysicalAttr(
    attackHit: int, attackCrit: int, defenseArmor: int, attackPowerAdd: int, hurtAdd: int,
    limitCounter: int, exemptCounter: int)
  datatype MagicAttr = MagicAttr(limitCounter: int, exemptBadCounter: int, exemptAllCounter: int)

  /** How one call changes an attribute, seen from the buff. */
  function Change(b: Buff, updataType: int, bCheck: bool, stored: Buff, a: Attr): int {
    if bCheck then
      Weight(Overridden(stored, b), a) - Weight(stored, a) + if b.Is(BYSKILL, FuHuo) then Weight(b, a) else 0
    else if updataType == UPDATABUFFER_ADD then Weight(b, a)
    else RemovalLeak(b, a) - Weight(b, a)
  }

  /** How one call changes hit points, mana and their maxima. */
  function Updated(b: Buff, updataType: int, bCheck: bool, stored: Buff, v: Vitals): Vitals {
    if bCheck then Raised(b, b.p1 - stored.p1, v)
    else if updataType == UPDATABUFFER_ADD then Raised(b, b.p1, v)
    else Ended(b, v)
  }

  class RoleState {
    const base: Base
    var moveAttrb: MoveMods
    var physicalAttrib: PhysicalAttr
    var magicAttrb: MagicAttr
    var currHpMax: int
    var currMpMax: int
    var hp: int
    var mp: int
    var live: bool
    var revival: Revival
    var buffs: seq<Buff>

    constructor (base: Base, revival: Revival)
      ensures this.base == base && this.revival == revival && buffs == [] && live
      ensures forall a :: Get(a) == BaseValue(base, a)
      ensures hp == base.hpMax && mp == base.mpMax
    {
      this.base, this.revival := base, revival;
      moveAttrb := MoveMods(base.speedMod, 0);
      physicalAttrib := PhysicalAttr(base.attackHit, base.attackCrit, base.defenseArmor, 0, 0, 0, 0);
      magicAttrb := MagicAttr(0, 0, 0);
      currHpMax, currMpMax, hp, mp := base.hpMax, base.mpMax, base.hpMax, base.mpMax;
      live := true;
      buffs := [];
    }

    function Get(a: Attr): int
      reads this
    {
      match a
      case SpeedMod => moveAttrb.speedMod
      case MoveLimit => moveAttrb.limitCounter
      case AttackHit => physicalAttrib.attackHit
      case AttackCrit => physicalAttrib.attackCrit
      case HurtAdd => physicalAttrib.hurtAdd
      case DefenseArmor => physicalAttrib.defenseArmor
      case AttackPowerAdd => physicalAttrib.attackPowerAdd
      case PhysicalLimit => physicalAttrib.limitCounter
      case PhysicalExempt => physicalAttrib.exemptCounter
      case MagicLimit => magicAttrb.limitCounter
      case ExemptBad => magicAttrb.exemptBadCounter
      case ExemptAll => magicAttrb.exemptAllCounter
      case HpMax => currHpMax
      case MpMax => currMpMax
    }

    function Vital(): Vitals
      reads this
    {
      Vitals(hp, mp, currHpMax, currMpMax)
    }

    /** Where the ledger stands: the attribute less what the active buffs account for. */
    function Drift(a: Attr): int
      reads this
    {
      Get(a) - Total(buffs, a)
    }

    /** The role was handed to onRoleDead with the vitals v: it is dead, or, if its revival was ready,
        has come back with a fresh table, hit points and mana as they were, and the base maxima. Every
        attribute is then back in step, but for AttackPowerAdd, which is off by what it was worth. */
    ghost predicate Fallen(was: Revival, now: int, kept: int, v: Vitals)
      reads this
    {
      if was.Ready(now) then
        && live && buffs == [RevivalBuff(was.level, now)] && revival == was.(lastUseTime := now)
        && Vital() == Vitals(v.hp, v.mp, base.hpMax, base.mpMax)
        && forall a :: Drift(a) == if a == AttackPowerAdd then kept else BaseValue(base, a)
      else
        !live && buffs == [] && revival == was && Vital() == v.(hp := 0)
    }

    /** bCheck says that the table already held a buff like b, at index at, with a lower level; its
        end time has been set by then. */
    predicate Callable(b: Buff, updataType: int, bCheck: bool, at: nat)
      reads this
    {
      && (updataType == UPDATABUFFER_ADD || updataType == UPDATABUFFER_DEL)
      && (bCheck ==> updataType == UPDATABUFFER_ADD && at < |buffs| &&
                     Same(buffs[at], b) && buffs[at].endTime == b.endTime)
    }

    /** The effect of the switch in UpdataBuffer. */
    twostate predicate Takes(b: Buff, updataType: int, bCheck: bool, at: nat)
      requires old(Callable(b, updataType, bCheck, at))
      reads this
    {
      && live == old(live) && revival == old(revival)
      && buffs == (if bCheck then old(buffs)[at := Overridden(old(buffs[at]), b)] else old(buffs))
      && Vital() == Updated(b, updataType, bCheck, if bCheck then old(buffs[at]) else b, old(Vital()))
      && forall a ::
           Get(a) == old(Get(a)) + Change(b, updataType, bCheck, if bCheck then old(buffs[at]) else b, a)
    }

    method UpdataZuiJiuYunWu(b: Buff, updataType: int, bCheck: bool, at: nat)
      requires b.Is(BYSKILL, ZuiJiuYunWu) && Callable(b, updataType, bCheck, at)
      modifies this
      ensures Takes(b, updataType, bCheck, at)
    {
      if bCheck {
        moveAttrb := moveAttrb.(speedMod := moveAttrb.speedMod - buffs[at].p1);
        physicalAttrib := physicalAttrib.(attackHit := physicalAttrib.attackHit - buffs[at].p2);
        buffs := buffs[at := buffs[at].(p1 := b.p1, p2 := b.p2)];
      }
      moveAttrb := moveAttrb.(speedMod := moveAttrb.speedMod + Signed(b.p1, updataType));
      physicalAttrib := physicalAttrib.(attackHit := physicalAttrib.attackHit + Signed(b.p2, updataType));
    }

    method UpdataYaoShu(b: Buff, updataType: int, bCheck: bool, at: nat)
      requires b.Is(BYSKILL, YaoShu) && Callable(b, updataType, bCheck, at)
      modifies this
      ensures Takes(b, updataType, bCheck, at)
    {
      if bCheck {
        moveAttrb := moveAttrb.(speedMod := moveAttrb.speedMod - buffs[at].p1);
        buffs := buffs[at := buffs[at].(p1 := b.p1)];
      } else {
        physicalAttrib := physicalAttrib.(limitCounter := physicalAttrib.limitCounter + updataType);
        magicAttrb := magicAttrb.(limitCounter := magicAttrb.limitCounter + updataType);
      }
      moveAttrb := moveAttrb.(speedMod := moveAttrb.speedMod + Signed(b.p1, updataType));
    }

    method UpdataSheShouTianFu(b: Buff, updataType: int, bCheck: bool, at: nat)
      requires b.Is(BYSKILL, SheShouTianFu) && Callable(b, updataType, bCheck, at)
      modifies this
      ensures Takes(b, updataType, bCheck, at)
    {
      if bCheck {
        physicalAttrib := physicalAttrib.(
          attackCrit := physicalAttrib.attackCrit - buffs[at].p1,
          attackHit := physicalAttrib.attackHit - buffs[at].p2);
        buffs := buffs[at := buffs[at].(p1 := b.p1, p2 := b.p2)];
      }
      physicalAttrib := physicalAttrib.(
        attackCrit := physicalAttrib.attackCrit + Signed(b.p1, updataType),
        attackHit := physicalAttrib.attackHit + Signed(b.p2, updataType));
    }

    /** The revival arm has no bCheck test. */
    method UpdataFuHuo(b: Buff, updataType: int, bCheck: bool, at: nat)
      requires b.Is(BYSKILL, FuHuo) && Callable(b, updataType, bCheck, at)
      modifies this
      ensures Takes(b, updataType, bCheck, at)
    {
      magicAttrb := magicAttrb.(exemptAllCounter := magicAttrb.exemptAllCounter + updataType);
      moveAttrb := moveAttrb.(limitCounter := moveAttrb.limitCounter + updataType);
      physicalAttrib := physicalAttrib.(limitCounter := physicalAttrib.limitCounter + updataType);
      magicAttrb := magicAttrb.(limitCounter := magicAttrb.limitCounter + updataType);
      physicalAttrib := physicalAttrib.(exemptCounter := physicalAttrib.exemptCounter + updataType);
      if updataType == UPDATABUFFER_DEL {
        hp := Quotient(currHpMax * b.p1, 100);
        mp := Quotient(currMpMax * b.p2, 100);
      }
      if bCheck {
        assert buffs[at] == Overridden(buffs[at], b);
      }
    }

    /** A curse raises the damage taken; when it ends, a share of what it has collected is taken. */
    method UpdataZuZhou(b: Buff, updataType: int, bCheck: bool, at: nat, now: int) returns (fell: bool)
      requires b.Is(BYSKILL, ZuZhou) && Callable(b, updataType, bCheck, at)
      modifies this
      ensures !fell ==> Takes(b, updataType, bCheck, at)
      ensures fell <==> updataType == UPDATABUFFER_DEL && Fells(b, old(hp))
      ensures fell ==> Fallen(old(revival), now, old(Get(AttackPowerAdd)), AtDeath(b, old(Vital())))
      decreases if updataType == UPDATABUFFER_ADD then 3 else 5, 0
    {
      fell := false;
      if bCheck {
        physicalAttrib := physicalAttrib.(hurtAdd := physicalAttrib.hurtAdd - Quotient(buffs[at].p1, 100));
        buffs := buffs[at := buffs[at].(p1 := b.p1)];
      }
      physicalAttrib := physicalAttrib.(hurtAdd := physicalAttrib.hurtAdd + Signed(Quotient(b.p1, 100), updataType));
      if updataType == UPDATABUFFER_ADD {
        return;
      }
      var hurt := Quotient(Remainder(b.p1, 100) * b.p2, 100);
      hp := hp - hurt;
      if hp <= 0 {
        hp := 0;
        fell := true;
        OnRoleDead(now);
      }
    }

    /** The buffs that only their skill tells apart. */
    method UpdataBySkill(b: Buff, updataType: int, bCheck: bool, at: nat, now: int) returns (fell: bool)
      requires b.kind == BYSKILL && Callable(b, updataType, bCheck, at)
      modifies this
      ensures !fell ==> Takes(b, updataType, bCheck, at)
      ensures fell <==> updataType == UPDATABUFFER_DEL && Fells(b, old(hp))
      ensures fell ==> Fallen(old(revival), now, old(Get(AttackPowerAdd)), AtDeath(b, old(Vital())))
      decreases if updataType == UPDATABUFFER_ADD then 3 else 5, 1
    {
      fell := false;
      if b.parentSkill == ZuiJiuYunWu {
        UpdataZuiJiuYunWu(b, updataType, bCheck, at);
      } else if b.parentSkill == ZuZhou {
        fell := UpdataZuZhou(b, updataType, bCheck, at, now);
      } else if b.parentSkill == WuGuangZhiDun {
        if bCheck {
          buffs := buffs[at := buffs[at].(p1 := b.p1)];
        }
      } else if b.parentSkill == FanJiLuoXuan {
        if bCheck {
          buffs := buffs[at := buffs[at].(p1 := b.p1, p2 := b.p2)];
        }
      } else if b.parentSkill == YaoShu {
        UpdataYaoShu(b, updataType, bCheck, at);
      } else if b.parentSkill == SheShouTianFu {
        UpdataSheShouTianFu(b, updataType, bCheck, at);
      } else if b.parentSkill == FuHuo {
        UpdataFuHuo(b, updataType, bCheck, at);
      } else if bCheck {
        assert buffs[at] == Overridden(buffs[at], b);
      }
    }

    method UpdataCastSkill(b: Buff, updataType: int, bCheck: bool, at: nat)
      requires b.kind == CASTSKILL && Callable(b, updataType, bCheck, at)
      modifies this`physicalAttrib, this`magicAttrb, this`moveAttrb
      ensures Takes(b, updataType, bCheck, at)
    {
      if bCheck {
        assert buffs[at] == Overridden(buffs[at], b);
      }
      if b.parentSkill == JianRenFengBao {
        if bCheck {
          return;
        }
        physicalAttrib := physicalAttrib.(limitCounter := physicalAttrib.limitCounter + updataType);
        magicAttrb := magicAttrb.(
          limitCounter := magicAttrb.limitCounter + updataType,
          exemptBadCounter := magicAttrb.exemptBadCounter + updataType);
      } else if b.parentSkill == WuDiZhan || b.parentSkill == ChongFeng {
        if bCheck {
          return;
        }
        magicAttrb := magicAttrb.(
          exemptAllCounter := magicAttrb.exemptAllCounter + updataType,
          limitCounter := magicAttrb.limitCounter + updataType);
        moveAttrb := moveAttrb.(limitCounter := moveAttrb.limitCounter + updataType);
        physicalAttrib := physicalAttrib.(
          limitCounter := physicalAttrib.limitCounter + updataType,
          exemptCounter := physicalAttrib.exemptCounter + updataType);
      }
    }

    /** Stun, silence and root. */
    method UpdataLimits(b: Buff, updataType: int, bCheck: bool, at: nat)
      requires (b.kind == XUANYUN || b.kind == NOSKILL || b.kind == NOMOVE) && Callable(b, updataType, bCheck, at)
      modifies this
      ensures Takes(b, updataType, bCheck, at)
    {
      if bCheck {
        assert buffs[at] == Overridden(buffs[at], b);
        return;
      }
      if b.kind == XUANYUN {
        physicalAttrib := physicalAttrib.(limitCounter := physicalAttrib.limitCounter + updataType);
        moveAttrb := moveAttrb.(limitCounter := moveAttrb.limitCounter + updataType);
        magicAttrb := magicAttrb.(limitCounter := magicAttrb.limitCounter + updataType);
      } else if b.kind == NOSKILL {
        magicAttrb := magicAttrb.(limitCounter := magicAttrb.limitCounter + updataType);
      } else {
        moveAttrb := moveAttrb.(limitCounter := moveAttrb.limitCounter + updataType);
      }
    }

    method UpdataMoveSpeed(b: Buff, updataType: int, bCheck: bool, at: nat)
      requires b.kind == MOVESPEED && Callable(b, updataType, bCheck, at)
      modifies this
      ensures Takes(b, updataType, bCheck, at)
    {
      if bCheck {
        moveAttrb := moveAttrb.(speedMod := moveAttrb.speedMod - buffs[at].p1);
        buffs := buffs[at := buffs[at].(p1 := b.p1)];
      }
      moveAttrb := moveAttrb.(speedMod := moveAttrb.speedMod + Signed(b.p1, updataType));
    }

    method UpdataArmor(b: Buff, updataType: int, bCheck: bool, at: nat)
      requires b.kind == ARMOR && Callable(b, updataType, bCheck, at)
      modifies this
      ensures Takes(b, updataType, bCheck, at)
    {
      if bCheck {
        physicalAttrib := physicalAttrib.(defenseArmor := physicalAttrib.defenseArmor - buffs[at].p1);
        buffs := buffs[at := buffs[at].(p1 := b.p1)];
      }
      physicalAttrib := physicalAttrib.(defenseArmor := physicalAttrib.defenseArmor + Signed(b.p1, updataType));
    }

    method UpdataAttackPower(b: Buff, updataType: int, bCheck: bool, at: nat)
      requires b.kind == ATTACKPOWER && Callable(b, updataType, bCheck, at)
      modifies this
      ensures Takes(b, updataType, bCheck, at)
    {
      if bCheck {
        physicalAttrib := physicalAttrib.(attackPowerAdd := physicalAttrib.attackPowerAdd - buffs[at].p1);
        buffs := buffs[at := buffs[at].(p1 := b.p1)];
      }
      physicalAttrib := physicalAttrib.(attackPowerAdd := physicalAttrib.attackPowerAdd + Signed(b.p1, updataType));
    }

    /** The two maxima: the update type plays no part here. */
    method UpdataMaxHp(b: Buff, updataType: int, bCheck: bool, at: nat)
      requires b.kind == MAXHP && Callable(b, updataType, bCheck, at)
      modifies this
      ensures Takes(b, updataType, bCheck, at)
    {
      if bCheck {
        currHpMax := currHpMax - buffs[at].p1;
        hp := hp - buffs[at].p1;
        buffs := buffs[at := buffs[at].(p1 := b.p1)];
      }
      currHpMax := currHpMax + b.p1;
      hp := hp + b.p1;
    }

    method UpdataMaxMp(b: Buff, updataType: int, bCheck: bool, at: nat)
      requires b.kind == MAXMP && Callable(b, updataType, bCheck, at)
      modifies this
      ensures Takes(b, updataType, bCheck, at)
    {
      if bCheck {
        currMpMax := currMpMax - buffs[at].p1;
        buffs := buffs[at := buffs[at].(p1 := b.p1)];
      }
      currMpMax := currMpMax + b.p1;
    }

    /** The remaining kinds. */
    method UpdataByKind(b: Buff, updataType: int, bCheck: bool, at: nat, now: int) returns (fell: bool)
      requires b.kind != BYSKILL && b.kind != CASTSKILL && Callable(b, updataType, bCheck, at)
      modifies this
      ensures !fell ==> Takes(b, updataType, bCheck, at)
      ensures fell <==> updataType == UPDATABUFFER_DEL && Fells(b, old(hp))
      ensures fell ==> Fallen(old(revival), now, old(Get(AttackPowerAdd)), AtDeath(b, old(Vital())))
      decreases if updataType == UPDATABUFFER_ADD then 3 else 5, 1
    {
      fell := false;
      if b.kind == CALL {
        if bCheck {
          assert buffs[at] == Overridden(buffs[at], b);
        }
        if updataType == UPDATABUFFER_ADD {
          return;
        }
        fell := true;
        OnRoleDead(now);
      } else if b.kind == XUANYUN || b.kind == NOSKILL || b.kind == NOMOVE {
        UpdataLimits(b, updataType, bCheck, at);
      } else if b.kind == MOVESPEED {
        UpdataMoveSpeed(b, updataType, bCheck, at);
      } else if b.kind == ARMOR {
        UpdataArmor(b, updataType, bCheck, at);
      } else if b.kind == ATTACKPOWER {
        UpdataAttackPower(b, updataType, bCheck, at);
      } else if b.kind == MAXHP {
        UpdataMaxHp(b, updataType, bCheck, at);
      } else if b.kind == MAXMP {
        UpdataMaxMp(b, updataType, bCheck, at);
      } else if bCheck {
        assert buffs[at] == Overridden(buffs[at], b);
      }
    }

    /** Init: everything goes back to its base value, except AttackPowerAdd, which is left alone. */
    method Init()
      modifies this`moveAttrb, this`physicalAttrib, this`magicAttrb, this`currHpMax, this`currMpMax, this`live
      ensures live && forall a :: Get(a) == if a == AttackPowerAdd then old(Get(a)) else BaseValue(base, a)
    {
      currHpMax, currMpMax := base.hpMax, base.mpMax;
      moveAttrb := MoveMods(base.speedMod, 0);
      physicalAttrib := physicalAttrib.(
        attackHit := base.attackHit, defenseArmor := base.defenseArmor, attackCrit := base.attackCrit,
        limitCounter := 0, exemptCounter := 0, hurtAdd := 0);
      magicAttrb := MagicAttr(0, 0, 0);
      live := true;
    }

    /** Death, or revival when that skill is ready. */
    method OnRoleDead(now: int)
      modifies this
      ensures if old(revival).Ready(now) then
          && live && Vital() == Vitals(old(hp), old(mp), base.hpMax, base.mpMax)
          && buffs == [RevivalBuff(old(revival).level, now)]
          && revival == old(revival).(lastUseTime := now)
          && forall a :: Drift(a) == if a == AttackPowerAdd then old(Get(a)) else BaseValue(base, a)
        else
          && !live && buffs == [] && revival == old(revival) && Vital() == old(Vital()).(hp := 0)
          && forall a :: Get(a) == old(Get(a))
      decreases 4, 0
    {
      if revival.Ready(now) {
        buffs := [];
        Init();
        assert Get(HpMax) == base.hpMax && Get(MpMax) == base.mpMax;
        assert forall a :: Drift(a) == if a == AttackPowerAdd then old(Get(a)) else BaseValue(base, a);
        CastOnClean(RevivalBuff(revival.level, now), now);
        revival := revival.(lastUseTime := now);
      } else {
        live := false;
        hp := 0;
        buffs := [];
      }
    }

    /** The first buff of an empty table simply joins it. */
    method CastOnClean(b: Buff, now: int)
      requires buffs == [] && b.Is(BYSKILL, FuHuo)
      modifies this
      ensures live == old(live) && revival == old(revival) && buffs == [b] && Vital() == old(Vital())
      ensures forall a :: Drift(a) == old(Drift(a))
      decreases 3, 4
    {
      assert FindSame(buffs, b) == |buffs|;
      var fell := UpdataBuffer(b, UPDATABUFFER_ADD, now);
    }

    /** Casts a buff on the role, or ends one of its buffs, which the caller then takes out of the
        table. Messages to the clients are not part of this model. */
    method UpdataBuffer(b: Buff, updataType: int, now: int) returns (fell: bool)
      requires updataType == UPDATABUFFER_ADD || updataType == UPDATABUFFER_DEL
      modifies this
      ensures !fell ==> live == old(live) && revival == old(revival)
      ensures updataType == UPDATABUFFER_ADD ==> buffs == Added(old(buffs), b)
      ensures updataType == UPDATABUFFER_ADD ==>
        forall a :: Drift(a) == old(Drift(a)) + AddLeak(old(buffs), b, a)
      ensures updataType == UPDATABUFFER_ADD ==> Vital() == CastOn(old(buffs), b, old(Vital()))
      ensures updataType == UPDATABUFFER_DEL && !fell ==> buffs == old(buffs)
      ensures updataType == UPDATABUFFER_DEL && !fell ==> Vital() == Ended(b, old(Vital()))
      ensures updataType == UPDATABUFFER_DEL && !fell ==>
        forall a :: Get(a) == old(Get(a)) + RemovalLeak(b, a) - Weight(b, a)
      ensures fell <==> updataType == UPDATABUFFER_DEL && Fells(b, old(hp))
      ensures fell ==> Fallen(old(revival), now, old(Get(AttackPowerAdd)), AtDeath(b, old(Vital())))
      decreases if updataType == UPDATABUFFER_ADD then 3 else if b.kind == CASTSKILL then 1 else 5, 3
    {
      fell := false;
      var bCheck := false;
      var checkType := 0;
      var at: nat := 0;
      if updataType == UPDATABUFFER_ADD && b.kind != HP && b.kind != MP {
        at := Find(b);
        if at < |buffs| {
          if buffs[at].level > b.level {
            return;
          }
          checkType := if buffs[at].level < b.level then 1 else 2;
          RefreshIsNeutral(buffs, at, b.endTime);
          buffs := buffs[at := buffs[at].(endTime := b.endTime)];
          bCheck := true;
        }
      }
      if checkType == 2 {
        return;
      }
      if updataType == UPDATABUFFER_ADD && !bCheck {
        Insert(b, now);
      }
      label booked:
      fell := Apply(b, updataType, bCheck, at, now);
      if bCheck {
        OverrideTotals(old@booked(buffs), at, b);
        assert buffs == Added(old(buffs), b);
      }
    }

    /** A new buff enters the table; its effect on the attributes follows. */
    method Insert(b: Buff, now: int)
      modifies this
      ensures live == old(live) && revival == old(revival) && Vital() == old(Vital())
      ensures buffs == Inserted(if Interrupts(b) then Filtered(old(buffs), BreakableCast) else old(buffs), b)
      ensures forall a :: Drift(a) == old(Drift(a)) - Weight(b, a)
      decreases 3, 0
    {
      if b.kind == XUANYUN || b.kind == NOMOVE || b.kind == NOSKILL {
        BreakLastSkill(now);
      }
      forall a
        ensures Total(Inserted(buffs, b), a) == Total(buffs, a) + Weight(b, a)
      {
        TotalOfInserted(buffs, b, a);
      }
      buffs := Inserted(buffs, b);
    }

    /** The switch over the kinds. */
    method Apply(b: Buff, updataType: int, bCheck: bool, at: nat, now: int) returns (fell: bool)
      requires Callable(b, updataType, bCheck, at)
      modifies this
      ensures !fell ==> Takes(b, updataType, bCheck, at)
      ensures fell <==> updataType == UPDATABUFFER_DEL && Fells(b, old(hp))
      ensures fell ==> Fallen(old(revival), now, old(Get(AttackPowerAdd)), AtDeath(b, old(Vital())))
      decreases if updataType == UPDATABUFFER_ADD then 3 else if b.kind == CASTSKILL then 1 else 5, 2
    {
      if b.kind == BYSKILL {
        fell := UpdataBySkill(b, updataType, bCheck, at, now);
      } else if b.kind == CASTSKILL {
        UpdataCastSkill(b, updataType, bCheck, at);
        fell := false;
      } else {
        fell := UpdataByKind(b, updataType, bCheck, at, now);
      }
    }

    /** The scan for a buff of the same kind and skill. */
    method Find(b: Buff) returns (at: nat)
      ensures at == FindSame(buffs, b)
    {
      at := 0;
      while at < |buffs| && !Same(buffs[at], b)
        invariant at <= |buffs| && FindSame(buffs, b) == at + FindSame(buffs[at..], b)
      {
        at := at + 1;
      }
    }

    /** Ends every breakable cast. */
    method BreakLastSkill(now: int)
      modifies this
      ensures live == old(live) && revival == old(revival) && Vital() == old(Vital())
      ensures buffs == Filtered(old(buffs), BreakableCast)
      ensures forall a :: Drift(a) == old(Drift(a))
      decreases 2, 0
    {
      var i := 0;
      while i < |buffs|
        invariant 0 <= i <= |buffs|
        invariant live == old(live) && revival == old(revival) && Vital() == old(Vital())
        invariant buffs[..i] + Filtered(buffs[i..], BreakableCast) == Filtered(old(buffs), BreakableCast)
        invariant forall a :: Drift(a) == old(Drift(a))
        decreases |buffs| - i
      {
        FilterStep(buffs, i, BreakableCast);
        if buffs[i].kind == CASTSKILL && buffs[i].canBreak {
          var fell := Remove(i, now);
        } else {
          i := i + 1;
        }
      }
      assert buffs[..i] == buffs;
    }

    /** Ends the buff at index i and erases it, as the three loops over the table do. A role that
        falls has its table replaced, and there is nothing left to erase. */
    method Remove(i: nat, now: int) returns (fell: bool)
      requires i < |buffs|
      modifies this
      ensures fell <==> Fells(old(buffs[i]), old(hp))
      ensures fell ==> Fallen(old(revival), now, old(Get(AttackPowerAdd)), AtDeath(old(buffs[i]), old(Vital())))
      ensures !fell ==> live == old(live) && revival == old(revival)
      ensures !fell ==> buffs == old(buffs)[..i] + old(buffs)[i + 1..]
      ensures !fell ==> Vital() == Ended(old(buffs[i]), old(Vital()))
      ensures !fell ==> forall a :: Drift(a) == old(Drift(a)) + RemovalLeak(old(buffs[i]), a)
      decreases if buffs[i].kind == CASTSKILL then 1 else 5, 4
    {
      fell := UpdataBuffer(buffs[i], UPDATABUFFER_DEL, now);
      if !fell {
        TotalsWithout(buffs, i);
        buffs := buffs[..i] + buffs[i + 1..];
      }
    }

    /** What a running buff does to the role itself. The effects of a running cast on other roles
        are not part of this model. */
    method RunBuffer(b: Buff) returns (b': Buff)
      modifies this`hp
      ensures b' == Ran(b)
      ensures hp == if b.kind == HP then Healed(b, old(hp), currHpMax) else old(hp)
    {
      b' := b;
      if b.kind == BYSKILL {
        if b.parentSkill == FanJiLuoXuan {
          b' := b.(p2 := b.p2 + 1);
        }
      } else if b.kind == HP && hp < currHpMax {
        var addHP := if b.relative then Quotient(b.p1 * currHpMax, 100) else b.p1;
        if hp + addHP > currHpMax {
          addHP := currHpMax - hp;
        }
        hp := hp + addHP;
      }
    }

    /** One pass over the table: buffs count and run, and those whose time is up are ended. */
    method CalculateBuff(now: int) returns (fell: bool)
      modifies this
      ensures fell ==> Fallen(old(revival), now,
                              old(Drift(AttackPowerAdd)) + PassHeld(old(buffs), now, old(Vital()), AttackPowerAdd),
                              PassAtFall(old(buffs), now, old(Vital())))
      ensures !fell ==> live == old(live) && revival == old(revival)
      ensures fell <==> PassFells(old(buffs), now, old(Vital()))
      ensures !fell ==> buffs == Passed(old(buffs), now) && Vital() == PassedOn(old(buffs), now, old(Vital()))
      ensures !fell ==> forall a :: Drift(a) == old(Drift(a)) + PassLeak(old(buffs), now, a)
    {
      fell := false;
      var i := 0;
      while i < |buffs|
        invariant 0 <= i <= |buffs| && !fell
        invariant live == old(live) && revival == old(revival)
        invariant buffs[..i] + Passed(buffs[i..], now) == Passed(old(buffs), now)
        invariant PassedOn(buffs[i..], now, Vital()) == PassedOn(old(buffs), now, old(Vital()))
        invariant PassFells(buffs[i..], now, Vital()) == PassFells(old(buffs), now, old(Vital()))
        invariant PassAtFall(buffs[i..], now, Vital()) == PassAtFall(old(buffs), now, old(Vital()))
        invariant Total(buffs[..i], AttackPowerAdd) + PassHeld(buffs[i..], now, Vital(), AttackPowerAdd) ==
          PassHeld(old(buffs), now, old(Vital()), AttackPowerAdd)
        invariant forall a ::
          Drift(a) + PassLeak(buffs[i..], now, a) == old(Drift(a)) + PassLeak(old(buffs), now, a)
        decreases |buffs| - i
      {
        PassStep(buffs, i, now);
        PassStepVitals(buffs, i, now, Vital());
        PassStepFall(buffs, i, now, Vital());
        PassStepHeld(buffs, i, now, Vital(), AttackPowerAdd);
        BuffRuns.PassLeakIsMaximal(old(buffs), now, AttackPowerAdd);
        BuffRuns.PassLeakIsMaximal(buffs[i..], now, AttackPowerAdd);
        Tick(i);
        if buffs[i].endTime <= now {
          fell := Remove(i, now);
          if fell {
            return;
          }
        } else {
          i := i + 1;
        }
      }
      assert buffs[..i] == buffs;
    }

    /** One buff counts, and runs when its count reaches its limit. */
    method Tick(i: nat)
      requires i < |buffs|
      modifies this`buffs, this`hp
      ensures buffs == old(buffs)[i := Ticked(old(buffs[i]))]
      ensures Vital() == TickedOn(old(buffs[i]), old(Vital()))
      ensures forall a :: Drift(a) == old(Drift(a))
    {
      ghost var table := buffs;
      if buffs[i].runTimeLimit > 0 {
        buffs := buffs[i := buffs[i].(runCounter := buffs[i].runCounter + 1)];
        if buffs[i].runCounter >= buffs[i].runTimeLimit {
          var b := RunBuffer(buffs[i]);
          buffs := buffs[i := b.(runCounter := 0)];
        }
      }
      TickIsNeutral(table, i);
    }

    /** The dispel skill ends every buff that may be broken and is no cast. If the role falls on the
        way, the source goes on to erase from the replaced table; the model stops there. */
    method DispelBuffs(now: int) returns (fell: bool)
      modifies this
      ensures fell ==> Fallen(old(revival), now, old(Drift(AttackPowerAdd)) +
                              FilterHeld(old(buffs), Dispellable, old(Vital()), AttackPowerAdd),
                              FilterAtFall(old(buffs), Dispellable, old(Vital())))
      ensures !fell ==> live == old(live) && revival == old(revival)
      ensures fell <==> FilterFells(old(buffs), Dispellable, old(Vital()))
      ensures !fell ==> buffs == Filtered(old(buffs), Dispellable)
      ensures !fell ==> Vital() == FilteredOn(old(buffs), Dispellable, old(Vital()))
      ensures !fell ==> forall a :: Drift(a) == old(Drift(a)) + FilterLeak(old(buffs), Dispellable, a)
    {
      fell := false;
      var i := 0;
      while i < |buffs|
        invariant 0 <= i <= |buffs| && !fell
        invariant live == old(live) && revival == old(revival)
        invariant buffs[..i] + Filtered(buffs[i..], Dispellable) == Filtered(old(buffs), Dispellable)
        invariant FilteredOn(buffs[i..], Dispellable, Vital()) == FilteredOn(old(buffs), Dispellable, old(Vital()))
        invariant FilterFells(buffs[i..], Dispellable, Vital()) == FilterFells(old(buffs), Dispellable, old(Vital()))
        invariant FilterAtFall(buffs[i..], Dispellable, Vital()) == FilterAtFall(old(buffs), Dispellable, old(Vital()))
        invariant Total(buffs[..i], AttackPowerAdd) + FilterHeld(buffs[i..], Dispellable, Vital(), AttackPowerAdd) ==
          FilterHeld(old(buffs), Dispellable, old(Vital()), AttackPowerAdd)
        invariant forall a ::
          Drift(a) + FilterLeak(buffs[i..], Dispellable, a) == old(Drift(a)) + FilterLeak(old(buffs), Dispellable, a)
        decreases |buffs| - i
      {
        FilterStep(buffs, i, Dispellable);
        FilterStepVitals(buffs, i, Dispellable, Vital());
        FilterStepFall(buffs, i, Dispellable, Vital());
        FilterStepHeld(buffs, i, Dispellable, Vital(), AttackPowerAdd);
        BuffRuns.FilterLeakIsMaximal(old(buffs), Dispellable, AttackPowerAdd);
        BuffRuns.FilterLeakIsMaximal(buffs[i..], Dispellable, AttackPowerAdd);
        if buffs[i].canBreak && buffs[i].kind != CASTSKILL {
          fell := Remove(i, now);
          if fell {
            return;
          }
        } else {
          i := i + 1;
        }
      }
      assert buffs[..i] == buffs;
    }

    /** The loop over the buffs of a role that is about to move. */
    method DrainMana()
      modifies this`buffs, this`mp
      ensures buffs == PacedAll(old(buffs)) && mp == ManaAfter(old(buffs), old(mp))
      ensures forall a :: Drift(a) == old(Drift(a))
    {
      ghost var was := buffs;
      var i := 0;
      while i < |buffs|
        invariant 0 <= i <= |buffs|
        invariant buffs[..i] + PacedAll(buffs[i..]) == PacedAll(was)
        invariant ManaAfter(buffs[i..], mp) == ManaAfter(was, old(mp))
        decreases |buffs| - i
      {
        PaceStep(buffs, i, mp);
        PaceOne(i);
        i := i + 1;
      }
      assert buffs[..i] == buffs && buffs[i..] == [];
      forall a
        ensures Total(PacedAll(was), a) == Total(was, a)
      {
        PaceKeepsTotals(was, a);
      }
    }

    /** One buff of that loop. */
    method PaceOne(i: nat)
      requires i < |buffs|
      modifies this`buffs, this`mp
      ensures buffs == old(buffs)[i := Paced(old(buffs[i]))]
      ensures mp == old(mp) - if Drains(old(buffs[i])) then DrainHurt(old(buffs[i]), old(mp)) else 0
    {
      var b := buffs[i];
      if b.parentSkill != NengLiangLiuShi {
        return;
      }
      b := b.(runCounter := b.runCounter + 1);
      if b.runCounter >= DRAIN_EVERY {
        b := b.(runCounter := 0);
        var mpHurt := Quotient(mp * b.p2, 100);
        if mpHurt == 0 && mp > 0 {
          mpHurt := 1;
        }
        mp := mp - mpHurt;
      }
      buffs := buffs[i := b];
    }

    /** Curses collect the damage of a hit. */
    method CollectCurses(hurt: int)
      modifies this`buffs
      ensures buffs == Cursed(old(buffs), hurt)
    {
      var i := 0;
      while i < |buffs|
        invariant 0 <= i <= |buffs|
        invariant buffs[..i] + Cursed(buffs[i..], hurt) == Cursed(old(buffs), hurt)
        decreases |buffs| - i
      {
        CurseStep(buffs, i, hurt);
        if buffs[i].parentSkill == ZuZhou {
          buffs := buffs[i := buffs[i].(p2 := buffs[i].p2 + hurt)];
        }
        i := i + 1;
      }
      assert buffs[..i] == buffs;
    }

    /** The loop over the target's buffs: shields swallow damage, and burst when they are full. The
        blast of a bursting shield and of the counter-whirl are not part of this model. */
    method StrikeShields(hurt: int, roll: int) returns (hurtValue: int)
      modifies this`buffs
      ensures buffs == Struck(old(buffs), hurt, roll) && hurtValue == Through(old(buffs), hurt)
    {
      hurtValue := hurt;
      var i := 0;
      while i < |buffs|
        invariant 0 <= i <= |buffs|
        invariant buffs[..i] + Struck(buffs[i..], hurtValue, roll) == Struck(old(buffs), hurt, roll)
        invariant Through(buffs[i..], hurtValue) == Through(old(buffs), hurt)
        decreases |buffs| - i
      {
        HitStep(buffs, i, hurtValue, roll);
        var b := buffs[i];
        if b.parentSkill == WuGuangZhiDun {
          b := b.(p2 := b.p2 + hurtValue);
          if b.p2 >= b.p1 {
            hurtValue := b.p2 - b.p1;
            buffs := buffs[..i] + buffs[i + 1..];
            continue;
          }
          hurtValue := 0;
        } else if b.parentSkill == FanJiLuoXuan && b.p2 >= 10 && roll <= b.p2 {
          b := b.(p2 := 0);
        }
        buffs := buffs[i := b];
        i := i + 1;
      }
      assert buffs[..i] == buffs;
    }

    /** The end of CalculateAttackHurt, once the damage of the attack is known, and with it what the
        attacker's javelin adds. */
    method TakeHit(hurt: int, bonus: int, roll: int, now: int) returns (fell: bool)
      modifies this
      ensures var left := Through(Cursed(old(buffs), hurt), hurt + bonus);
        && (fell <==> left > 0 && old(hp) <= left)
        && (fell ==> Fallen(old(revival), now, old(Get(AttackPowerAdd)), old(Vital()).(hp := old(hp) - left)))
        && (!fell ==> Vital() == old(Vital()).(hp := old(hp) - Positive(left)))
      ensures !fell ==> live == old(live) && revival == old(revival)
      ensures !fell ==> buffs == Struck(Cursed(old(buffs), hurt), hurt + bonus, roll)
      ensures !fell ==> forall a :: Get(a) == old(Get(a))
      ensures !fell && CastBySkill(old(buffs)) ==> forall a :: Drift(a) == old(Drift(a))
    {
      fell := false;
      ghost var was := buffs;
      CollectCurses(hurt);
      var hurtValue := StrikeShields(hurt + bonus, roll);
      if CastBySkill(was) {
        forall a
          ensures Total(buffs, a) == Total(was, a)
        {
          CurseKeepsTotals(was, hurt, a);
          HitKeepsTotals(Cursed(was, hurt), hurt + bonus, roll, a);
        }
      }
      if hurtValue > 0 {
        hp := hp - hurtValue;
        if hp <= 0 {
          fell := true;
          OnRoleDead(now);
        }
      }
    }

    /** The end of CalculateSkillHurt: the damage of a skill meets neither curses nor shields. */
    method TakeSpell(hurt: int, now: int) returns (fell: bool)
      modifies this
      ensures fell <==> old(hp) <= hurt
      ensures fell ==> Fallen(old(revival), now, old(Get(AttackPowerAdd)), old(Vital()).(hp := old(hp) - hurt))
      ensures !fell ==> Self() == old(Self()).(v := old(Vital()).(hp := old(hp) - hurt))
      ensures !fell ==> forall a :: Get(a) == old(Get(a))
    {
      hp := hp - hurt;
      fell := hp <= 0;
      if fell {
        OnRoleDead(now);
      }
    }

    /** What CalculateMultiSkillHurt does to one of its targets: death, without onRoleDead, so that a
        ready revival is not used and the table stays. */
    method TakeSweep(hurt: int) returns (fell: bool)
      modifies this`hp, this`live
      ensures fell <==> old(hp) <= hurt
      ensures Self() == if fell then old(Self()).(v := old(Vital()).(hp := 0), live := false)
                        else old(Self()).(v := old(Vital()).(hp := old(hp) - hurt))
    {
      hp := hp - hurt;
      fell := hp <= 0;
      if fell {
        hp := 0;
        live := false;
      }
    }

    method EndureOne(h: Hit, now: int) returns (fell: bool)
      modifies this
      ensures var left := Through(Cursed(old(buffs), h.hurt), h.Full());
        && (fell <==> left > 0 && old(hp) <= left)
        && (fell ==> Fallen(old(revival), now, old(Get(AttackPowerAdd)), old(Vital()).(hp := old(hp) - left)))
        && (!fell ==> Vital() == old(Vital()).(hp := old(hp) - Positive(left)))
      ensures !fell ==> revival == old(revival) && Get(AttackPowerAdd) == old(Get(AttackPowerAdd))
      ensures !fell ==> buffs == Struck(Cursed(old(buffs), h.hurt), h.Full(), h.roll)
    {
      fell := TakeHit(h.hurt, h.bonus, h.roll, now);
    }

    /** Any run of hits: a role that is still up has lost exactly what its shields could not hold; it
        falls as soon as that is at least what it had. */
    method Endure(hits: seq<Hit>, now: int) returns (fell: bool, at: nat)
      requires Whole(buffs) && Harmful(hits)
      modifies this
      ensures fell <==> Overcome(old(buffs), hits, old(hp))
      ensures fell ==> at < |hits| && Overcome(old(buffs), hits[..at + 1], old(hp)) &&
                       !Overcome(old(buffs), hits[..at], old(hp))
      ensures fell ==> Fallen(old(revival), now, old(Get(AttackPowerAdd)),
                              old(Vital()).(hp := old(hp) - Excess(old(buffs), hits[..at + 1])))
      ensures !fell ==> buffs == AfterHits(old(buffs), hits) && Whole(buffs)
      ensures !fell ==> Vital() == old(Vital()).(hp := old(hp) - Positive(Excess(old(buffs), hits)))
    {
      fell, at := false, 0;
      assert hits[..0] == [];
      WholeCapacity(buffs);
      while at < |hits|
        invariant 0 <= at <= |hits| && !fell && revival == old(revival)
        invariant Get(AttackPowerAdd) == old(Get(AttackPowerAdd))
        invariant buffs == AfterHits(old(buffs), hits[..at])
        invariant Vital() == old(Vital()).(hp := old(hp) - Positive(Excess(old(buffs), hits[..at])))
        invariant !Overcome(old(buffs), hits[..at], old(hp))
      {
        NextHit(old(buffs), hits, at);
        fell := EndureOne(hits[at], now);
        if fell {
          return;
        }
        at := at + 1;
      }
      assert hits[..at] == hits;
      ShieldsConserve(old(buffs), hits);
    }

    method PlayOne(op: Op) returns (fell: bool)
      modifies this
      ensures fell <==> OpFells(old(buffs), op, old(Vital()))
      ensures fell ==> Fallen(old(revival), TimeOf(op), old(Drift(AttackPowerAdd)) +
                              OpHeld(old(buffs), op, old(Vital()), AttackPowerAdd),
                              OpAtFall(old(buffs), op, old(Vital())))
      ensures !fell ==> live == old(live) && revival == old(revival)
      ensures !fell ==> buffs == TableAfter(old(buffs), op) && Vital() == VitalsAfter(old(buffs), op, old(Vital()))
      ensures !fell ==> forall a :: Drift(a) == old(Drift(a)) + LeakOf(old(buffs), op, a)
    {
      fell := false;
      match op {
      case Cast(b, castAt) => fell := UpdataBuffer(b, UPDATABUFFER_ADD, castAt);
      case Pass(now) => fell := CalculateBuff(now);
      case Dispel(dispelAt) => fell := DispelBuffs(dispelAt);
      case Interrupt(interruptAt) => BreakLastSkill(interruptAt);
      }
    }

    /** Any run of casts, passes, dispels and interruptions: as long as the role does not fall, the
        table goes through the runs of the specification, and every attribute follows it. The plain
        attributes and the counters do so exactly: without active buffs they are where they started. */
    method Play(ops: seq<Op>) returns (fell: bool, at: nat)
      modifies this
      ensures at == FallsAt(old(buffs), ops, old(Vital())) && (fell <==> at < |ops|)
      ensures fell ==> Fallen(old(revival), TimeOf(ops[at]), old(Drift(AttackPowerAdd)) +
                              HeldAtFall(old(buffs), ops, old(Vital()), AttackPowerAdd),
                              VitalsAtFall(old(buffs), ops, old(Vital())))
      ensures !fell ==> live == old(live) && revival == old(revival)
      ensures !fell ==> buffs == TableRun(old(buffs), ops) && Vital() == VitalsRun(old(buffs), ops, old(Vital()))
      ensures !fell ==> forall a :: Drift(a) == old(Drift(a)) + LeakRun(old(buffs), ops, a)
      ensures !fell ==> forall a ::
        BuffRuns.Plain(a) || (BuffRuns.Counter(a) && BuffRuns.NoRevivalCasts(ops)) ==>
          Drift(a) == old(Drift(a)) && (buffs == [] ==> Get(a) == old(Drift(a)))
    {
      fell := false;
      at := 0;
      while at < |ops|
        invariant 0 <= at <= |ops| && !fell
        invariant live == old(live) && revival == old(revival)
        invariant at + FallsAt(buffs, ops[at..], Vital()) == FallsAt(old(buffs), ops, old(Vital()))
        invariant VitalsRun(buffs, ops[at..], Vital()) == VitalsRun(old(buffs), ops, old(Vital()))
        invariant TableRun(buffs, ops[at..]) == TableRun(old(buffs), ops)
        invariant VitalsAtFall(buffs, ops[at..], Vital()) == VitalsAtFall(old(buffs), ops, old(Vital()))
        invariant HeldAtFall(buffs, ops[at..], Vital(), AttackPowerAdd) ==
          HeldAtFall(old(buffs), ops, old(Vital()), AttackPowerAdd)
        invariant forall a ::
          Drift(a) + LeakRun(buffs, ops[at..], a) == old(Drift(a)) + LeakRun(old(buffs), ops, a)
      {
        assert ops[at..][1..] == ops[at + 1..];
        BuffRuns.PlainLedgerIsExact(old(buffs), ops, AttackPowerAdd);
        BuffRuns.PlainLedgerIsExact(buffs, ops[at..], AttackPowerAdd);
        fell := PlayOne(ops[at]);
        if fell {
          return;
        }
        at := at + 1;
      }
      forall a | BuffRuns.Plain(a)
        ensures LeakRun(old(buffs), ops, a) == 0
      {
        BuffRuns.PlainLedgerIsExact(old(buffs), ops, a);
      }
      forall a | BuffRuns.Counter(a) && BuffRuns.NoRevivalCasts(ops)
        ensures LeakRun(old(buffs), ops, a) == 0
      {
        BuffRuns.CountersAreExact(old(buffs), ops, a);
      }
    }

    // -------- runs with hits and revivals

    function Self(): Role
      reads this
    {
      Role(buffs, Vital(), revival, live)
    }

    /** Every attribute but attack power and the two maxima is its base value plus what the active buffs
        add to it. */
    ghost predicate InStep()
      reads this
    {
      forall a :: a != AttackPowerAdd && (BuffRuns.Plain(a) || BuffRuns.Counter(a)) ==> Drift(a) == BaseValue(base, a)
    }

    /** One event of a run. */
    method FightOne(e: Event) returns (over: bool)
      requires CastBySkill(buffs) && GenuineEvent(e)
      modifies this
      ensures over <==> Ends(old(Self()), e)
      ensures !over ==> Self() == After(base, old(Self()), e) && CastBySkill(buffs)
      ensures !over && old(live) ==> live
      ensures !over && old(InStep()) ==> InStep()
      ensures !over ==> Drift(AttackPowerAdd) == old(Drift(AttackPowerAdd)) + Kept(old(Self()), e)
    {
      ghost var was := Self();
      match e {
      case Quiet(op) =>
        StepKeepsCastBySkill(buffs, op);
        assert [op][0] == op;
        over := false;
        var at;
        over, at := Play([op]);
        OneOp(was.buffs, op, was.v);
      case Spell(hurt, spellAt) =>
        var fell := TakeSpell(hurt, spellAt);
        over := fell && !live;
      case Sweep(hurt) =>
        over := TakeSweep(hurt);
      case Attack(h, attackAt) =>
        HitKeepsSkill(buffs, h);
        var fell := TakeHit(h.hurt, h.bonus, h.roll, attackAt);
        over := fell && !live;
      }
    }

    /** Any run of casts, passes, dispels, interruptions and hits, through any number of revivals, until
        the role is dead or falls inside a loop over its buffs. Attributes stay in step all the time;
        attack power gathers what the revivals have kept of it. */
    method Fight(events: seq<Event>) returns (over: bool, at: nat)
      requires CastBySkill(buffs) && forall i :: 0 <= i < |events| ==> GenuineEvent(events[i])
      modifies this
      ensures at == EndsAt(base, old(Self()), events) && (over <==> at < |events|)
      ensures !over ==> Self() == FightRun(base, old(Self()), events)
      ensures !over && old(InStep()) ==> InStep()
      ensures !over ==> Drift(AttackPowerAdd) == old(Drift(AttackPowerAdd)) + KeptSum(base, old(Self()), events)
    {
      over, at := false, 0;
      while at < |events|
        invariant 0 <= at <= |events| && !over && CastBySkill(buffs)
        invariant at + EndsAt(base, Self(), events[at..]) == EndsAt(base, old(Self()), events)
        invariant FightRun(base, Self(), events[at..]) == FightRun(base, old(Self()), events)
        invariant old(InStep()) ==> InStep()
        invariant Drift(AttackPowerAdd) + KeptSum(base, Self(), events[at..]) ==
          old(Drift(AttackPowerAdd)) + KeptSum(base, old(Self()), events)
      {
        assert events[at..][1..] == events[at + 1..];
        over := FightOne(events[at]);
        if over {
          return;
        }
        at := at + 1;
      }
    }
  }
}
