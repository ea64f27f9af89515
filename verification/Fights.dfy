/** Runs in which a role is also hit, dies, and may come back: what onRoleDead leaves behind. */
module Fights {
  import opened BuffTable
  import opened RoleVitals
  import opened BuffRuns
  import opened BuffLife
  import opened Shield

  /** Something that happens to a role: an operation on its buffs, a hit, the damage of a skill, or
      that of a skill that strikes many at once. */
  datatype Event =
    | Quiet(op: Op)
    | Attack(hit: Hit, attackAt: int)
    | Spell(hurt: int, spellAt: int)
    | Sweep(sweepHurt: int)

  /** What a run needs to know about a role. */
  datatype Role = Role(buffs: seq<Buff>, v: Vitals, revival: Revival, live: bool)

  function HpLeft(s: Role, h: Hit): int {
    s.v.hp - Positive(Through(Cursed(s.buffs, h.hurt), h.Full()))
  }

  /** The hit takes all the hit points that are left. */
  predicate Kills(s: Role, h: Hit) {
    Through(Cursed(s.buffs, h.hurt), h.Full()) > 0 && HpLeft(s, h) <= 0
  }

  /** onRoleDead, with the hit points as the last hit has left them. */
  function Downed(base: Base, s: Role, hp: int, now: int): Role {
    if s.revival.Ready(now) then
      Role([RevivalBuff(s.revival.level, now)], Vitals(hp, s.v.mp, base.hpMax, base.mpMax),
           s.revival.(lastUseTime := now), true)
    else
      Role([], s.v.(hp := 0), s.revival, false)
  }

  function After(base: Base, s: Role, e: Event): Role {
    match e
    case Quiet(op) => s.(buffs := TableAfter(s.buffs, op), v := VitalsAfter(s.buffs, op, s.v))
    case Attack(h, now) =>
      if Kills(s, h) then Downed(base, s, HpLeft(s, h), now)
      else s.(buffs := Struck(Cursed(s.buffs, h.hurt), h.Full(), h.roll), v := s.v.(hp := HpLeft(s, h)))
    case Spell(hurt, now) =>
      if s.v.hp <= hurt then Downed(base, s, s.v.hp - hurt, now) else s.(v := s.v.(hp := s.v.hp - hurt))
    case Sweep(hurt) =>
      if s.v.hp <= hurt then s.(v := s.v.(hp := 0), live := false) else s.(v := s.v.(hp := s.v.hp - hurt))
  }

  /** The run ends with a role that is dead, or with one that falls inside a loop over its buffs. */
  predicate Ends(s: Role, e: Event) {
    match e
    case Quiet(op) => OpFells(s.buffs, op, s.v)
    case Attack(h, now) => Kills(s, h) && !s.revival.Ready(now)
    case Spell(hurt, now) => s.v.hp <= hurt && !s.revival.Ready(now)
    case Sweep(hurt) => s.v.hp <= hurt
  }

  /** The event that ends the run, or the length of the run. */
  function EndsAt(base: Base, s: Role, events: seq<Event>): (i: nat)
    ensures i <= |events|
    decreases |events|
  {
    if events == [] || Ends(s, events[0]) then 0 else 1 + EndsAt(base, After(base, s, events[0]), events[1..])
  }

  function FightRun(base: Base, s: Role, events: seq<Event>): Role
    decreases |events|
  {
    if events == [] then s else FightRun(base, After(base, s, events[0]), events[1..])
  }

  /** A hit can act on any table; a cast is one that the skills make, and the revival buff is none. */
  predicate GenuineEvent(e: Event) {
    e.Quiet? && e.op.Cast? ==> Genuine(e.op.b) && !e.op.b.Is(BYSKILL, FuHuo)
  }

  lemma OneOp(buffs: seq<Buff>, op: Op, v: Vitals)
    ensures FallsAt(buffs, [op], v) == if OpFells(buffs, op, v) then 0 else 1
    ensures TableRun(buffs, [op]) == TableAfter(buffs, op)
    ensures VitalsRun(buffs, [op], v) == VitalsAfter(buffs, op, v)
  {
    assert [op][1..] == [];
  }

  lemma {:induction false} StruckKeepsSkill(buffs: seq<Buff>, hurt: int, roll: int)
    requires CastBySkill(buffs)
    ensures CastBySkill(Struck(buffs, hurt, roll))
  {
    if buffs != [] {
      var b := buffs[0];
      assert CastBySkill(buffs[1..]);
      if IsShield(b) {
        StruckKeepsSkill(buffs[1..], if b.p2 + hurt >= b.p1 then b.p2 + hurt - b.p1 else 0, roll);
      } else {
        StruckKeepsSkill(buffs[1..], hurt, roll);
      }
    }
  }

  lemma HitKeepsSkill(buffs: seq<Buff>, h: Hit)
    requires CastBySkill(buffs)
    ensures CastBySkill(Struck(Cursed(buffs, h.hurt), h.Full(), h.roll))
  {
    CurseKeepsTotals(buffs, h.hurt, AttackPowerAdd);
    StruckKeepsSkill(Cursed(buffs, h.hurt), h.Full(), h.roll);
  }

  // -------- what revivals leave behind

  predicate Revives(s: Role, e: Event) {
    match e
    case Attack(h, now) => Kills(s, h) && s.revival.Ready(now)
    case Spell(hurt, now) => s.v.hp <= hurt && s.revival.Ready(now)
    case _ => false
  }

  /** Init leaves AttackPowerAdd alone: a revival keeps what the cleared buffs had added to it. */
  function Kept(s: Role, e: Event): int {
    if Revives(s, e) then Total(s.buffs, AttackPowerAdd) else 0
  }

  function KeptSum(base: Base, s: Role, events: seq<Event>): int
    decreases |events|
  {
    if events == [] then 0 else Kept(s, events[0]) + KeptSum(base, After(base, s, events[0]), events[1..])
  }

  /** The roar, the only skill that adds attack power, takes none away; on a weak role it may add 0. */
  ghost predicate Roars(buffs: seq<Buff>) {
    forall i :: 0 <= i < |buffs| && buffs[i].kind == ATTACKPOWER ==> buffs[i].p1 >= 0
  }

  predicate Roaring(b: Buff) {
    b.kind == ATTACKPOWER && b.p1 > 0
  }

  lemma {:induction false} PowerIsPositive(buffs: seq<Buff>)
    requires Roars(buffs)
    ensures Total(buffs, AttackPowerAdd) >= 0
    ensures Total(buffs, AttackPowerAdd) == 0 <==> forall i :: 0 <= i < |buffs| ==> !Roaring(buffs[i])
  {
    if buffs != [] {
      assert Roars(buffs[1..]);
      PowerIsPositive(buffs[1..]);
      assert forall i :: 0 < i < |buffs| ==> buffs[i] == buffs[1..][i - 1];
    }
  }

  /** A deadly hit or skill on a role that is ready to come back and is under a roar that adds some. */
  predicate RevivesRoaring(s: Role, e: Event) {
    Revives(s, e) && exists i :: 0 <= i < |s.buffs| && Roaring(s.buffs[i])
  }

  /** Such a death, and no other event, leaves attack power behind. */
  lemma PowerIsKeptIff(s: Role, e: Event)
    requires Roars(s.buffs)
    ensures Kept(s, e) != 0 <==> RevivesRoaring(s, e)
  {
    PowerIsPositive(s.buffs);
  }

  ghost predicate EverRevivesRoaring(base: Base, s: Role, events: seq<Event>)
    decreases |events|
  {
    events != [] &&
    (RevivesRoaring(s, events[0]) || EverRevivesRoaring(base, After(base, s, events[0]), events[1..]))
  }

  ghost predicate CastsRoar(events: seq<Event>) {
    forall i :: 0 <= i < |events| && events[i].Quiet? && events[i].op.Cast? ==>
      (events[i].op.b.kind == ATTACKPOWER ==> events[i].op.b.p1 >= 0)
  }

  lemma RoarsFiltered(buffs: seq<Buff>, drop: Buff -> bool)
    requires Roars(buffs)
    ensures Roars(Filtered(buffs, drop))
  {
    FilteredMembers(buffs, drop);
    var rest := Filtered(buffs, drop);
    forall j | 0 <= j < |rest|
      ensures rest[j] in buffs
    {
      assert rest[j] in rest;
    }
  }

  lemma RoarsInserted(buffs: seq<Buff>, b: Buff)
    requires Roars(buffs) && (b.kind == ATTACKPOWER ==> b.p1 >= 0)
    ensures Roars(Inserted(buffs, b))
  {
    var p := Place(buffs, b.kind);
    var s := Inserted(buffs, b);
    assert forall i :: 0 <= i < |s| ==> s[i] == if i < p then buffs[i] else if i == p then b else buffs[i - 1];
  }

  lemma RoarsReplaced(buffs: seq<Buff>, i: int, b: Buff)
    requires Roars(buffs) && 0 <= i < |buffs| && (b.kind == ATTACKPOWER ==> b.p1 >= 0)
    ensures Roars(buffs[i := b])
  {
  }

  lemma RoarsAdded(buffs: seq<Buff>, b: Buff)
    requires Roars(buffs) && (b.kind == ATTACKPOWER ==> b.p1 >= 0)
    ensures Roars(Added(buffs, b))
  {
    var i := FindSame(buffs, b);
    if Stacks(b) || i == |buffs| {
      RoarsFiltered(buffs, BreakableCast);
      RoarsInserted(if Interrupts(b) then Filtered(buffs, BreakableCast) else buffs, b);
    } else {
      RoarsReplaced(buffs, i, buffs[i].(endTime := b.endTime));
      RoarsReplaced(buffs, i, Overridden(buffs[i], b));
    }
  }

  lemma RoarsPassed(buffs: seq<Buff>, now: int)
    requires Roars(buffs)
    ensures Roars(Passed(buffs, now))
  {
    forall j | 0 <= j < |Passed(buffs, now)|
      ensures exists i :: 0 <= i < |buffs| && Passed(buffs, now)[j] == Ticked(buffs[i])
    {
      var i := PassedMembers(buffs, now, j);
    }
  }

  /** A hit rewrites second parameters and takes shields out, nothing else. */
  lemma {:induction false} HitMembers(buffs: seq<Buff>, hurt: int, roll: int)
    requires Roars(buffs)
    ensures Roars(Struck(buffs, hurt, roll))
  {
    if buffs != [] {
      var b := buffs[0];
      assert Roars(buffs[1..]);
      if IsShield(b) {
        HitMembers(buffs[1..], if b.p2 + hurt >= b.p1 then b.p2 + hurt - b.p1 else 0, roll);
      } else {
        HitMembers(buffs[1..], hurt, roll);
      }
    }
  }

  lemma {:induction false} CurseMembers(buffs: seq<Buff>, hurt: int)
    requires Roars(buffs)
    ensures Roars(Cursed(buffs, hurt))
  {
    if buffs != [] {
      assert Roars(buffs[1..]);
      CurseMembers(buffs[1..], hurt);
    }
  }

  lemma RoarsAfter(base: Base, s: Role, e: Event)
    requires Roars(s.buffs) && CastsRoar([e])
    ensures Roars(After(base, s, e).buffs)
  {
    match e
    case Quiet(op) =>
      assert [e][0] == e;
      match op {
      case Cast(b, _) => RoarsAdded(s.buffs, b);
      case Pass(now) => RoarsPassed(s.buffs, now);
      case Dispel(_) => RoarsFiltered(s.buffs, Dispellable);
      case Interrupt(_) => RoarsFiltered(s.buffs, BreakableCast);
      }
    case Spell(_, _) =>
    case Sweep(_) =>
    case Attack(h, now) =>
      CurseMembers(s.buffs, h.hurt);
      HitMembers(Cursed(s.buffs, h.hurt), h.Full(), h.roll);
  }

  /** Over any run: attack power is left behind if and only if the role once came back while it was
      under a roar. */
  lemma {:induction false} PowerLeaksIff(base: Base, s: Role, events: seq<Event>)
    requires Roars(s.buffs) && CastsRoar(events)
    ensures KeptSum(base, s, events) >= 0
    ensures KeptSum(base, s, events) != 0 <==> EverRevivesRoaring(base, s, events)
    decreases |events|
  {
    if events != [] {
      PowerIsPositive(s.buffs);
      PowerIsKeptIff(s, events[0]);
      RoarsAfter(base, s, events[0]);
      PowerLeaksIff(base, After(base, s, events[0]), events[1..]);
    }
  }

  /** The roar's first level on a role with 100 attack power, then a hit of 150 on its 100 hit points:
      the role is back with nothing but the revival buff, and 5 more attack power for good. */
  lemma PowerLeakHappens()
    ensures var s := Role([], Vitals(100, 100, 100, 100), Revival(1, 0, 300), true);
      var base := Base(90, 80, 10, 20, 100, 100);
      var roar := Buff(ATTACKPOWER, PaoXiao, 1, 1, 101, true, true, 5, 0, 0, 0);
      var events := [Quiet(Cast(roar, 1)), Attack(Hit(150, 0, 50), 2)];
      && FightRun(base, s, events).buffs == [RevivalBuff(1, 2)] && FightRun(base, s, events).live
      && KeptSum(base, s, events) == 5
  {
    var s := Role([], Vitals(100, 100, 100, 100), Revival(1, 0, 300), true);
    var base := Base(90, 80, 10, 20, 100, 100);
    var roar := Buff(ATTACKPOWER, PaoXiao, 1, 1, 101, true, true, 5, 0, 0, 0);
    var events := [Quiet(Cast(roar, 1)), Attack(Hit(150, 0, 50), 2)];
    var t := After(base, s, events[0]);
    assert Added([], roar) == [roar];
    assert t == s.(buffs := [roar]);
    RoarIsKept(base, t, roar, events[1]);
    TwoEvents(base, s, events[0], events[1]);
    assert Kept(s, events[0]) == 0;
    assert t.revival.Ready(2);
  }

  lemma TwoEvents(base: Base, s: Role, e: Event, f: Event)
    ensures FightRun(base, s, [e, f]) == After(base, After(base, s, e), f)
    ensures KeptSum(base, s, [e, f]) == Kept(s, e) + Kept(After(base, s, e), f)
  {
    assert [e, f][1..] == [f];
    assert FightRun(base, After(base, s, e), [f]) == After(base, After(base, s, e), f);
    assert KeptSum(base, After(base, s, e), [f]) == Kept(After(base, s, e), f);
  }

  lemma RoarIsKept(base: Base, t: Role, roar: Buff, e: Event)
    requires t == Role([roar], Vitals(100, 100, 100, 100), Revival(1, 0, 300), true)
    requires roar.kind == ATTACKPOWER && roar.parentSkill == PaoXiao
    requires e == Attack(Hit(150, 0, 50), 2)
    ensures Kept(t, e) == roar.p1 && After(base, t, e) == Downed(base, t, -50, 2)
  {
    assert [roar][1..] == [];
    assert Cursed([roar], 150) == [roar];
    assert Through([roar], 150) == Through([], 150) == 150;
    assert Total([roar], AttackPowerAdd) == roar.p1;
  }

  // -------- when a role comes back, and with what

  function EventTime(e: Event): int {
    match e
    case Quiet(op) => TimeOf(op)
    case Attack(_, attackAt) => attackAt
    case Spell(_, spellAt) => spellAt
    case Sweep(_) => 0
  }

  /** A last use at time 0 counts as none. */
  ghost predicate Started(events: seq<Event>) {
    forall i :: 0 <= i < |events| && (events[i].Attack? || events[i].Spell?) ==> EventTime(events[i]) != 0
  }

  /** Event j of the run revives the role. */
  predicate RevivesAt(base: Base, s: Role, events: seq<Event>, j: nat)
    requires j < |events|
  {
    Revives(FightRun(base, s, events[..j]), events[j])
  }

  lemma RestOfRun(base: Base, s: Role, events: seq<Event>, j: nat)
    requires 1 <= j < |events|
    ensures RevivesAt(base, s, events, j) == RevivesAt(base, After(base, s, events[0]), events[1..], j - 1)
  {
    assert events[..j][1..] == events[1..][..j - 1];
    assert events[..j][0] == events[0];
  }

  lemma {:induction false} RevivalWaits(base: Base, s: Role, events: seq<Event>, j: nat)
    requires s.revival.lastUseTime != 0 && s.revival.coolDown >= 0 && Started(events)
    requires j < |events| && RevivesAt(base, s, events, j)
    ensures EventTime(events[j]) - s.revival.lastUseTime >= s.revival.coolDown
    decreases |events|
  {
    if j == 0 {
      assert events[..0] == [];
    } else {
      RestOfRun(base, s, events, j);
      RevivalWaits(base, After(base, s, events[0]), events[1..], j - 1);
    }
  }

  /** Any two revivals of a run lie at least the cool-down apart. */
  lemma {:induction false} RevivalsAreApart(base: Base, s: Role, events: seq<Event>, i: nat, j: nat)
    requires s.revival.coolDown >= 0 && Started(events)
    requires i < j < |events| && RevivesAt(base, s, events, i) && RevivesAt(base, s, events, j)
    ensures EventTime(events[j]) - EventTime(events[i]) >= s.revival.coolDown
    decreases |events|
  {
    RestOfRun(base, s, events, j);
    var t := After(base, s, events[0]);
    if i == 0 {
      assert events[..0] == [];
      RevivalWaits(base, t, events[1..], j - 1);
    } else {
      RestOfRun(base, s, events, i);
      RevivalsAreApart(base, t, events[1..], i - 1, j - 1);
    }
  }

  lemma TenthsOf(whole: nat, level: nat)
    ensures var share := Quotient(whole * (10 * level), 100);
      10 * share <= whole * level < 10 * share + 10
  {
    assert whole * (10 * level) == 10 * (whole * level);
  }

  /** A role of level 1 to 6 that has come back waits twenty units of time, as it is; then it has that many
      tenths of its base hit points and mana, and no buffs. */
  lemma RevivalEnds(base: Base, s: Role, hp: int, now: int, later: int)
    requires s.revival.Ready(now) && 1 <= s.revival.level <= 6 && 0 <= base.hpMax && 0 <= base.mpMax
    ensures var t := Downed(base, s, hp, now);
      var u, level := After(base, t, Quiet(Pass(later))), s.revival.level;
      && (later < now + 20 ==> u == t && !Ends(t, Quiet(Pass(later))))
      && (later >= now + 20 ==>
            && !Ends(t, Quiet(Pass(later))) && u.live && u.buffs == []
            && u.v.hpMax == base.hpMax && u.v.mpMax == base.mpMax
            && 10 * u.v.hp <= base.hpMax * level < 10 * u.v.hp + 10
            && 10 * u.v.mp <= base.mpMax * level < 10 * u.v.mp + 10)
  {
    var b, t := RevivalBuff(s.revival.level, now), Downed(base, s, hp, now);
    assert t.buffs == [b] && Ticked(b) == b;
    if later < now + 20 {
      LonePass(b, later, t.v);
    } else {
      LoneEnd(b, later, t.v);
    }
    TenthsOf(base.hpMax, s.revival.level);
    TenthsOf(base.mpMax, s.revival.level);
  }
}
