/** The whole life of a curse: what it adds, what it collects, and what it takes in the end. */
module Curses {
  import opened BuffTable
  import opened RoleVitals
  import opened BuffRuns
  import opened BuffLife
  import opened Shield
  import opened Fights

  /** The damage that curses see in a run: that of the hits, without what javelins add, and without the
      damage of skills. */
  function HurtIn(events: seq<Event>): int {
    if events == [] then 0
    else (if events[0].Attack? then events[0].hit.hurt else 0) + HurtIn(events[1..])
  }

  /** The version of a curse after an event that it lives through. */
  function CurseAfter(b: Buff, e: Event): Buff {
    match e
    case Quiet(op) => VersionAfter(b, op)
    case Attack(h, _) => b.(p2 := b.p2 + h.hurt)
    case Spell(_, _) => b
    case Sweep(_) => b
  }

  /** The curse outlives the event, no stronger one is cast over it, and the role neither dies nor comes
      back. */
  predicate Stays(s: Role, b: Buff, e: Event) {
    match e
    case Quiet(op) => Outlives(s.buffs, b, op) && (op.Cast? && Same(b, op.b) ==> b.level >= op.b.level)
    case Attack(h, _) => !Kills(s, h)
    case Spell(hurt, _) => s.v.hp > hurt
    case Sweep(hurt) => s.v.hp > hurt
  }

  ghost predicate StaysThrough(base: Base, s: Role, b: Buff, events: seq<Event>)
    decreases |events|
  {
    events == [] || (Stays(s, b, events[0]) &&
                     StaysThrough(base, After(base, s, events[0]), CurseAfter(b, events[0]), events[1..]))
  }

  function CurseRun(b: Buff, events: seq<Event>): Buff
    decreases |events|
  {
    if events == [] then b else CurseRun(CurseAfter(b, events[0]), events[1..])
  }

  lemma {:induction false} CursedMember(buffs: seq<Buff>, b: Buff, hurt: int)
    requires b in buffs && b.parentSkill == ZuZhou
    ensures b.(p2 := b.p2 + hurt) in Cursed(buffs, hurt)
  {
    if b != buffs[0] {
      assert buffs == [buffs[0]] + buffs[1..];
      CursedMember(buffs[1..], b, hurt);
    }
  }

  lemma {:induction false} StruckMember(buffs: seq<Buff>, b: Buff, hurt: int, roll: int)
    requires b in buffs && b.parentSkill == ZuZhou
    ensures b in Struck(buffs, hurt, roll)
  {
    if b != buffs[0] {
      assert buffs == [buffs[0]] + buffs[1..];
      var c := buffs[0];
      if IsShield(c) {
        StruckMember(buffs[1..], b, if c.p2 + hurt >= c.p1 then c.p2 + hurt - c.p1 else 0, roll);
      } else {
        StruckMember(buffs[1..], b, hurt, roll);
      }
    }
  }

  lemma CursedIsDisciplined(buffs: seq<Buff>, hurt: int)
    requires Disciplined(buffs)
    ensures Disciplined(Cursed(buffs, hurt))
  {
    var c := Cursed(buffs, hurt);
    CursedKinds(buffs, hurt);
    forall i, j | 0 <= i < j < |c|
      ensures Before(c[i], c[j])
    {
      assert Before(buffs[i], buffs[j]);
    }
  }

  lemma {:induction false} CursedKinds(buffs: seq<Buff>, hurt: int)
    ensures |Cursed(buffs, hurt)| == |buffs|
    ensures forall i :: 0 <= i < |buffs| ==> Same(Cursed(buffs, hurt)[i], buffs[i])
  {
    if buffs != [] {
      CursedKinds(buffs[1..], hurt);
      assert forall i :: 0 < i < |buffs| ==> Cursed(buffs, hurt)[i] == Cursed(buffs[1..], hurt)[i - 1];
    }
  }

  lemma {:induction false} StruckKinds(buffs: seq<Buff>, hurt: int, roll: int, j: nat) returns (i: nat)
    requires j < |Struck(buffs, hurt, roll)|
    ensures i < |buffs| && Same(Struck(buffs, hurt, roll)[j], buffs[i])
  {
    var b := buffs[0];
    if IsShield(b) && b.p2 + hurt >= b.p1 {
      i := StruckKinds(buffs[1..], b.p2 + hurt - b.p1, roll, j);
      i := i + 1;
    } else if j == 0 {
      i := 0;
    } else {
      i := StruckKinds(buffs[1..], if IsShield(b) then 0 else hurt, roll, j - 1);
      i := i + 1;
    }
  }

  lemma {:induction false} StruckIsDisciplined(buffs: seq<Buff>, hurt: int, roll: int)
    requires Disciplined(buffs)
    ensures Disciplined(Struck(buffs, hurt, roll))
  {
    if buffs != [] {
      var b := buffs[0];
      if IsShield(b) && b.p2 + hurt >= b.p1 {
        StruckIsDisciplined(buffs[1..], b.p2 + hurt - b.p1, roll);
      } else {
        var left := if IsShield(b) then 0 else hurt;
        StruckIsDisciplined(buffs[1..], left, roll);
        var rest := Struck(buffs[1..], left, roll);
        forall j | 0 <= j < |rest|
          ensures Before(b, rest[j])
        {
          var i := StruckKinds(buffs[1..], left, roll, j);
          assert Before(b, buffs[i + 1]);
        }
      }
    }
  }

  lemma StaysThroughHit(buffs: seq<Buff>, b: Buff, h: Hit)
    requires Disciplined(buffs) && b in buffs && b.parentSkill == ZuZhou
    ensures var struck := Struck(Cursed(buffs, h.hurt), h.Full(), h.roll);
      b.(p2 := b.p2 + h.hurt) in struck && Disciplined(struck)
  {
    CursedMember(buffs, b, h.hurt);
    CursedIsDisciplined(buffs, h.hurt);
    StruckMember(Cursed(buffs, h.hurt), b.(p2 := b.p2 + h.hurt), h.Full(), h.roll);
    StruckIsDisciplined(Cursed(buffs, h.hurt), h.Full(), h.roll);
  }

  lemma StaysInTable(base: Base, s: Role, b: Buff, e: Event)
    requires Disciplined(s.buffs) && b in s.buffs && b.Is(BYSKILL, ZuZhou) && Stays(s, b, e)
    ensures CurseAfter(b, e) in After(base, s, e).buffs && Disciplined(After(base, s, e).buffs)
  {
    match e
    case Quiet(op) => KeptByOp(s.buffs, b, op);
    case Spell(_, _) =>
    case Sweep(_) =>
    case Attack(h, _) => StaysThroughHit(s.buffs, b, h);
  }

  /** The curse keeps its strength and collects exactly the damage of the hits. */
  lemma CurseCollects(s: Role, b: Buff, e: Event)
    requires b.Is(BYSKILL, ZuZhou) && b.runTimeLimit == 0 && Stays(s, b, e)
    ensures var c := CurseAfter(b, e);
      && c.Is(BYSKILL, ZuZhou) && c.runTimeLimit == 0 && c.p1 == b.p1 && c.p2 == b.p2 + HurtIn([e])
  {
    assert [e][1..] == [];
  }

  lemma {:induction false} CurseRuns(base: Base, s: Role, b: Buff, events: seq<Event>)
    requires Disciplined(s.buffs) && b in s.buffs && b.Is(BYSKILL, ZuZhou) && b.runTimeLimit == 0
    requires StaysThrough(base, s, b, events)
    ensures var c := CurseRun(b, events);
      && c in FightRun(base, s, events).buffs
      && c.Is(BYSKILL, ZuZhou) && c.p1 == b.p1 && c.p2 == b.p2 + HurtIn(events)
    decreases |events|
  {
    if events != [] {
      StaysInTable(base, s, b, events[0]);
      CurseCollects(s, b, events[0]);
      assert [events[0]][1..] == [];
      CurseRuns(base, After(base, s, events[0]), CurseAfter(b, events[0]), events[1..]);
    }
  }

  /** A curse of strength 100 * a + share raises the damage taken by a. Whatever happens to the role while
      it lasts, short of death and a stronger curse, its end takes that share, in percent, of the damage
      of the hits in between. */
  lemma CurseTakesItsShare(base: Base, s: Role, b: Buff, a: nat, share: nat, events: seq<Event>)
    requires Disciplined(s.buffs) && b in s.buffs && b.Is(BYSKILL, ZuZhou) && b.runTimeLimit == 0
    requires b.p1 == 100 * a + share && share < 100 && b.p2 == 0
    requires StaysThrough(base, s, b, events) && 0 <= HurtIn(events)
    ensures var c := CurseRun(b, events);
      && c in FightRun(base, s, events).buffs
      && Weight(b, HurtAdd) == Weight(c, HurtAdd) == a
      && TakesShare(c, FightRun(base, s, events).v, share, HurtIn(events))
  {
    CurseRuns(base, s, b, events);
    Hundreds(a, share);
    EndTakesShare(CurseRun(b, events), FightRun(base, s, events).v, a, share);
  }

  /** The end of the curse takes so many percent, rounded down, and kills if that is all there is. */
  ghost predicate TakesShare(c: Buff, v: Vitals, share: int, hurt: int) {
    var taken := v.hp - Ended(c, v).hp;
    && 100 * taken <= share * hurt < 100 * taken + 100
    && (Fells(c, v.hp) <==> v.hp <= taken)
  }

  lemma EndTakesShare(c: Buff, v: Vitals, a: nat, share: nat)
    requires c.Is(BYSKILL, ZuZhou) && c.p1 == 100 * a + share && share < 100 && c.p2 >= 0
    ensures TakesShare(c, v, share, c.p2)
  {
    Hundreds(a, share);
    assert share * c.p2 >= 0;
  }

  lemma Hundreds(a: nat, share: nat)
    requires share < 100
    ensures Quotient(100 * a + share, 100) == a && Remainder(100 * a + share, 100) == share
  {
  }
}
