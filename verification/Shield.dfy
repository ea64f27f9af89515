/** The shield in CalculateAttackHurt: a buff that swallows damage until it bursts. */
module Shield {
  import opened BuffTable
  import opened BuffRuns

  predicate IsShield(b: Buff) {
    b.parentSkill == WuGuangZhiDun
  }

  /** The charged counter-whirl may go off when its role is hit, which spends its charges. */
  function Whirled(b: Buff, roll: int): Buff {
    if b.p2 >= 10 && roll <= b.p2 then b.(p2 := 0) else b
  }

  /** Every curse on the role collects the damage. */
  function Cursed(buffs: seq<Buff>, hurt: int): seq<Buff> {
    if buffs == [] then []
    else [if buffs[0].parentSkill == ZuZhou then buffs[0].(p2 := buffs[0].p2 + hurt) else buffs[0]]
         + Cursed(buffs[1..], hurt)
  }

  /** The table after a hit has gone through it. */
  function Struck(buffs: seq<Buff>, hurt: int, roll: int): seq<Buff> {
    if buffs == [] then []
    else
      var b := buffs[0];
      if IsShield(b) then
        if b.p2 + hurt >= b.p1 then Struck(buffs[1..], b.p2 + hurt - b.p1, roll)
        else [b.(p2 := b.p2 + hurt)] + Struck(buffs[1..], 0, roll)
      else [if b.parentSkill == FanJiLuoXuan then Whirled(b, roll) else b] + Struck(buffs[1..], hurt, roll)
  }

  /** The damage that is left for the role. */
  function Through(buffs: seq<Buff>, hurt: int): int {
    if buffs == [] then hurt
    else
      var b := buffs[0];
      if IsShield(b) then Through(buffs[1..], if b.p2 + hurt >= b.p1 then b.p2 + hurt - b.p1 else 0)
      else Through(buffs[1..], hurt)
  }

  /** No shield in the table has taken more than it can. */
  ghost predicate Whole(buffs: seq<Buff>) {
    forall i :: 0 <= i < |buffs| && IsShield(buffs[i]) ==> buffs[i].p2 < buffs[i].p1
  }

  /** What the shields of the table can still swallow. */
  function Capacity(buffs: seq<Buff>): int {
    if buffs == [] then 0
    else (if IsShield(buffs[0]) then buffs[0].p1 - buffs[0].p2 else 0) + Capacity(buffs[1..])
  }

  function Positive(i: int): nat {
    if i < 0 then 0 else i
  }

  lemma {:induction false} WholeCapacity(buffs: seq<Buff>)
    requires Whole(buffs)
    ensures Capacity(buffs) >= 0
  {
    if buffs != [] {
      WholeCapacity(buffs[1..]);
    }
  }

  /** One hit: the shields swallow as much as they can, and only the rest goes through. A shield
      that stays in the table can still take damage. */
  lemma {:induction false} HitIsShared(buffs: seq<Buff>, hurt: int, roll: int)
    requires Whole(buffs) && hurt >= 0
    ensures Whole(Struck(buffs, hurt, roll))
    ensures Through(buffs, hurt) == Positive(hurt - Capacity(buffs))
    ensures Capacity(Struck(buffs, hurt, roll)) == Positive(Capacity(buffs) - hurt)
  {
    if buffs != [] {
      var b := buffs[0];
      assert Whole(buffs[1..]);
      WholeCapacity(buffs[1..]);
      if IsShield(b) {
        assert b.p2 < b.p1;
        HitIsShared(buffs[1..], if b.p2 + hurt >= b.p1 then b.p2 + hurt - b.p1 else 0, roll);
      } else {
        HitIsShared(buffs[1..], hurt, roll);
      }
    }
  }

  lemma {:induction false} CurseKeepsShields(buffs: seq<Buff>, hurt: int)
    ensures Capacity(Cursed(buffs, hurt)) == Capacity(buffs)
    ensures Whole(buffs) ==> Whole(Cursed(buffs, hurt))
  {
    if buffs != [] {
      CurseKeepsShields(buffs[1..], hurt);
      if Whole(buffs) {
        assert Whole(buffs[1..]);
        var c := Cursed(buffs, hurt);
        assert forall i :: 0 < i < |c| ==> c[i] == Cursed(buffs[1..], hurt)[i - 1];
        assert IsShield(buffs[0]) ==> c[0] == buffs[0];
      }
    }
  }

  /** The three skills that a hit acts on are always cast as buffs of the BYSKILL kind. */
  ghost predicate CastBySkill(buffs: seq<Buff>) {
    forall i :: 0 <= i < |buffs| && buffs[i].parentSkill in {WuGuangZhiDun, ZuZhou, FanJiLuoXuan} ==>
      buffs[i].kind == BYSKILL
  }

  lemma HitWeights(b: Buff, p2: int, a: Attr)
    requires b.kind == BYSKILL && b.parentSkill in {WuGuangZhiDun, ZuZhou, FanJiLuoXuan}
    ensures Weight(b.(p2 := p2), a) == Weight(b, a)
    ensures IsShield(b) ==> Weight(b, a) == 0
  {
  }

  /** A hit rewrites the table without touching what the attributes stand for. */
  lemma {:induction false} HitKeepsTotals(buffs: seq<Buff>, hurt: int, roll: int, a: Attr)
    requires CastBySkill(buffs)
    ensures Total(Struck(buffs, hurt, roll), a) == Total(buffs, a)
  {
    if buffs != [] {
      assert CastBySkill(buffs[1..]);
      var b := buffs[0];
      if IsShield(b) {
        HitWeights(b, b.p2 + hurt, a);
        HitKeepsTotals(buffs[1..], if b.p2 + hurt >= b.p1 then b.p2 + hurt - b.p1 else 0, roll, a);
      } else {
        if b.parentSkill == FanJiLuoXuan {
          HitWeights(b, 0, a);
        }
        HitKeepsTotals(buffs[1..], hurt, roll, a);
      }
    }
  }

  lemma {:induction false} CurseKeepsTotals(buffs: seq<Buff>, hurt: int, a: Attr)
    requires CastBySkill(buffs)
    ensures Total(Cursed(buffs, hurt), a) == Total(buffs, a) && CastBySkill(Cursed(buffs, hurt))
  {
    if buffs != [] {
      assert CastBySkill(buffs[1..]);
      CurseKeepsTotals(buffs[1..], hurt, a);
      var c := Cursed(buffs, hurt);
      assert forall i :: 0 < i < |c| ==> c[i] == Cursed(buffs[1..], hurt)[i - 1];
    }
  }

  /** The counter-whirl never goes off below ten charges and always from ninety-nine on; going off, it
      spends them all. */
  lemma WhirlThresholds(b: Buff, roll: int)
    requires 0 <= roll < 100
    ensures b.p2 < 10 ==> Whirled(b, roll) == b
    ensures b.p2 >= 99 ==> Whirled(b, roll) == b.(p2 := 0)
    ensures Whirled(b, roll) == b || Whirled(b, roll) == b.(p2 := 0)
    ensures b.p2 > 0 && Whirled(b, roll).p2 == 0 <==> 10 <= b.p2 && roll <= b.p2
  {
  }

  // -------- the loops, one buff at a time

  lemma CurseStep(buffs: seq<Buff>, i: int, hurt: int)
    requires 0 <= i < |buffs|
    ensures var b := if buffs[i].parentSkill == ZuZhou then buffs[i].(p2 := buffs[i].p2 + hurt) else buffs[i];
      && buffs[i := b][i + 1..] == buffs[i + 1..]
      && buffs[i := b][..i + 1] + Cursed(buffs[i + 1..], hurt) == buffs[..i] + Cursed(buffs[i..], hurt)
  {
    assert buffs[i..][1..] == buffs[i + 1..];
  }

  lemma HitStep(buffs: seq<Buff>, i: int, hurt: int, roll: int)
    requires 0 <= i < |buffs|
    ensures var b := buffs[i];
      var rest := buffs[..i] + buffs[i + 1..];
      && rest[i..] == buffs[i + 1..] && rest[..i] == buffs[..i]
      && if IsShield(b) && b.p2 + hurt >= b.p1 then
           && Struck(buffs[i..], hurt, roll) == Struck(buffs[i + 1..], b.p2 + hurt - b.p1, roll)
           && Through(buffs[i..], hurt) == Through(buffs[i + 1..], b.p2 + hurt - b.p1)
         else
           var c := if IsShield(b) then b.(p2 := b.p2 + hurt)
                    else if b.parentSkill == FanJiLuoXuan then Whirled(b, roll) else b;
           var left := if IsShield(b) then 0 else hurt;
           && buffs[i := c][i + 1..] == buffs[i + 1..]
           && buffs[i := c][..i + 1] + Struck(buffs[i + 1..], left, roll) == buffs[..i] + Struck(buffs[i..], hurt, roll)
           && Through(buffs[i..], hurt) == Through(buffs[i + 1..], left)
  {
    assert buffs[i..][1..] == buffs[i + 1..];
  }

  // -------- runs of hits

  /** The damage of an attack, which curses collect; what the attacker's javelin adds to it, which they
      do not; and the target's luck with the counter-whirl. */
  datatype Hit = Hit(hurt: int, bonus: int, roll: int) {
    function Full(): int {
      hurt + bonus
    }
  }

  function AfterHits(buffs: seq<Buff>, hits: seq<Hit>): seq<Buff>
    decreases |hits|
  {
    if hits == [] then buffs
    else AfterHits(Struck(Cursed(buffs, hits[0].hurt), hits[0].Full(), hits[0].roll), hits[1..])
  }

  /** The hit points the run takes. */
  function Loss(buffs: seq<Buff>, hits: seq<Hit>): int
    decreases |hits|
  {
    if hits == [] then 0
    else
      var cursed := Cursed(buffs, hits[0].hurt);
      Through(cursed, hits[0].Full()) + Loss(Struck(cursed, hits[0].Full(), hits[0].roll), hits[1..])
  }

  function Incoming(hits: seq<Hit>): int {
    if hits == [] then 0 else hits[0].Full() + Incoming(hits[1..])
  }

  ghost predicate Harmful(hits: seq<Hit>) {
    forall i :: 0 <= i < |hits| ==> hits[i].Full() >= 0
  }

  lemma {:induction false} IncomingIsNatural(hits: seq<Hit>)
    requires Harmful(hits)
    ensures Incoming(hits) >= 0
  {
    if hits != [] {
      IncomingIsNatural(hits[1..]);
    }
  }

  /** Over any run of hits, however the damage is split, the role loses exactly what the shields
      could not hold at the start, and the shields have swallowed the rest. */
  lemma {:induction false} ShieldsConserve(buffs: seq<Buff>, hits: seq<Hit>)
    requires Whole(buffs) && Harmful(hits)
    ensures Loss(buffs, hits) == Positive(Incoming(hits) - Capacity(buffs))
    ensures Incoming(hits) == Loss(buffs, hits) + (Capacity(buffs) - Capacity(AfterHits(buffs, hits)))
    ensures Whole(AfterHits(buffs, hits)) && 0 <= Capacity(AfterHits(buffs, hits)) <= Capacity(buffs)
    decreases |hits|
  {
    WholeCapacity(buffs);
    if hits != [] {
      CurseKeepsShields(buffs, hits[0].hurt);
      var cursed := Cursed(buffs, hits[0].hurt);
      HitIsShared(cursed, hits[0].Full(), hits[0].roll);
      ShieldsConserve(Struck(cursed, hits[0].Full(), hits[0].roll), hits[1..]);
      IncomingIsNatural(hits[1..]);
    }
  }

  /** What a run of hits deals beyond what the shields can hold. */
  function Excess(buffs: seq<Buff>, hits: seq<Hit>): int {
    Incoming(hits) - Capacity(buffs)
  }

  /** A run of hits that brings down a role with so many hit points. */
  predicate Overcome(buffs: seq<Buff>, hits: seq<Hit>, hp: int) {
    0 < Excess(buffs, hits) && hp <= Excess(buffs, hits)
  }

  lemma {:induction false} OneMoreHit(buffs: seq<Buff>, hits: seq<Hit>, h: Hit)
    ensures var table := Cursed(AfterHits(buffs, hits), h.hurt);
      && AfterHits(buffs, hits + [h]) == Struck(table, h.Full(), h.roll)
      && Loss(buffs, hits + [h]) == Loss(buffs, hits) + Through(table, h.Full())
    ensures Incoming(hits + [h]) == Incoming(hits) + h.Full()
    decreases |hits|
  {
    if hits == [] {
      assert hits + [h] == [h];
      assert [h][1..] == [];
    } else {
      assert (hits + [h])[1..] == hits[1..] + [h];
      OneMoreHit(Struck(Cursed(buffs, hits[0].hurt), hits[0].Full(), hits[0].roll), hits[1..], h);
    }
  }

  /** The hit at index i of a run: what gets through is what the excess has grown by. */
  lemma NextHit(buffs: seq<Buff>, hits: seq<Hit>, i: int)
    requires Whole(buffs) && Harmful(hits) && 0 <= i < |hits|
    ensures var table := Cursed(AfterHits(buffs, hits[..i]), hits[i].hurt);
      && AfterHits(buffs, hits[..i + 1]) == Struck(table, hits[i].Full(), hits[i].roll)
      && Through(table, hits[i].Full()) ==
           Positive(Excess(buffs, hits[..i + 1])) - Positive(Excess(buffs, hits[..i])) >= 0
    ensures Excess(buffs, hits[..i]) <= Excess(buffs, hits[..i + 1]) <= Excess(buffs, hits)
  {
    assert hits[..i + 1] == hits[..i] + [hits[i]];
    OneMoreHit(buffs, hits[..i], hits[i]);
    ShieldsConserve(buffs, hits[..i]);
    ShieldsConserve(buffs, hits[..i + 1]);
    IncomingSplits(hits, i + 1);
    IncomingIsNatural(hits[i + 1..]);
  }

  lemma {:induction false} IncomingSplits(hits: seq<Hit>, i: int)
    requires 0 <= i <= |hits|
    ensures Incoming(hits) == Incoming(hits[..i]) + Incoming(hits[i..])
  {
    if i > 0 {
      IncomingSplits(hits[1..], i - 1);
      assert hits[..i] == [hits[0]] + hits[1..][..i - 1];
      assert hits[1..][i - 1..] == hits[i..];
    }
  }

  // -------- what a cast over a standing shield can do

  ghost predicate OneShield(buffs: seq<Buff>) {
    forall i, j :: 0 <= i < j < |buffs| ==> !(IsShield(buffs[i]) && IsShield(buffs[j]))
  }

  /** A table that keeps its discipline holds one shield at most. */
  lemma OneShieldPerRole(buffs: seq<Buff>)
    requires Disciplined(buffs) && CastBySkill(buffs)
    ensures OneShield(buffs)
  {
    forall i, j | 0 <= i < j < |buffs|
      ensures !(IsShield(buffs[i]) && IsShield(buffs[j]))
    {
      assert Before(buffs[i], buffs[j]);
    }
  }

  lemma {:induction false} NothingInTheWay(buffs: seq<Buff>, hurt: int)
    requires forall i :: 0 <= i < |buffs| ==> !IsShield(buffs[i])
    ensures Through(buffs, hurt) == hurt
  {
    if buffs != [] {
      NothingInTheWay(buffs[1..], hurt);
    }
  }

  predicate Overdrawn(b: Buff) {
    IsShield(b) && b.p2 > b.p1
  }

  /** A hit gets through with more than it dealt if and only if the role's shield had already taken
      more than it can hold. */
  lemma {:induction false} ShieldAmplifiesIff(buffs: seq<Buff>, hurt: int)
    requires OneShield(buffs) && hurt > 0
    ensures Through(buffs, hurt) > hurt <==> exists i :: 0 <= i < |buffs| && Overdrawn(buffs[i])
  {
    if buffs != [] {
      var b := buffs[0];
      assert OneShield(buffs[1..]);
      if IsShield(b) {
        assert forall i :: 0 <= i < |buffs[1..]| ==> buffs[1..][i] == buffs[i + 1];
        NothingInTheWay(buffs[1..], if b.p2 + hurt >= b.p1 then b.p2 + hurt - b.p1 else 0);
        assert Overdrawn(b) ==> Overdrawn(buffs[0]);
      } else {
        ShieldAmplifiesIff(buffs[1..], hurt);
        if i :| 0 <= i < |buffs| && Overdrawn(buffs[i]) {
          assert Overdrawn(buffs[1..][i - 1]);
        }
      }
    }
  }

  /** A buff that the skills can cast: of the right kind, and a shield with something left to hold. */
  predicate Genuine(b: Buff) {
    && (b.parentSkill in {WuGuangZhiDun, ZuZhou, FanJiLuoXuan} ==> b.kind == BYSKILL)
    && (IsShield(b) ==> b.p2 < b.p1)
  }

  /** A stronger level whose amount is no more than what the standing shield has already taken. */
  predicate Overdraws(buffs: seq<Buff>, b: Buff) {
    IsShield(b) && Overrides(buffs, b) && b.p1 <= buffs[FindSame(buffs, b)].p2
  }

  lemma WholeInserted(buffs: seq<Buff>, b: Buff)
    requires Genuine(b)
    ensures Whole(buffs) ==> Whole(Inserted(buffs, b))
    ensures CastBySkill(buffs) ==> CastBySkill(Inserted(buffs, b))
  {
    var p := Place(buffs, b.kind);
    var s := Inserted(buffs, b);
    assert forall i :: 0 <= i < |s| ==> s[i] == if i < p then buffs[i] else if i == p then b else buffs[i - 1];
  }

  lemma WholeFiltered(buffs: seq<Buff>, drop: Buff -> bool)
    ensures Whole(buffs) ==> Whole(Filtered(buffs, drop))
    ensures CastBySkill(buffs) ==> CastBySkill(Filtered(buffs, drop))
  {
    var rest := Filtered(buffs, drop);
    FilteredMembers(buffs, drop);
    forall j | 0 <= j < |rest|
      ensures exists i :: 0 <= i < |buffs| && buffs[i] == rest[j]
    {
      assert rest[j] in rest;
    }
  }

  lemma WholePassed(buffs: seq<Buff>, now: int)
    ensures Whole(buffs) ==> Whole(Passed(buffs, now))
    ensures CastBySkill(buffs) ==> CastBySkill(Passed(buffs, now))
  {
    var rest := Passed(buffs, now);
    forall j | 0 <= j < |rest|
      ensures exists i :: 0 <= i < |buffs| && Ticked(buffs[i]) == rest[j]
    {
      var i := PassedMembers(buffs, now, j);
    }
  }

  /** A cast leaves the shields whole if and only if it does not overdraw one. */
  lemma CastKeepsWholeIff(buffs: seq<Buff>, b: Buff)
    requires Whole(buffs) && CastBySkill(buffs) && Genuine(b)
    ensures Whole(Added(buffs, b)) <==> !Overdraws(buffs, b)
    ensures (exists i :: 0 <= i < |Added(buffs, b)| && Overdrawn(Added(buffs, b)[i])) <==>
      Overdraws(buffs, b) && b.p1 < buffs[FindSame(buffs, b)].p2
    ensures CastBySkill(Added(buffs, b))
  {
    var i := FindSame(buffs, b);
    if Stacks(b) || i == |buffs| {
      var table := if Interrupts(b) then Filtered(buffs, BreakableCast) else buffs;
      WholeFiltered(buffs, BreakableCast);
      WholeInserted(table, b);
    } else if Overrides(buffs, b) {
      var o := Overridden(buffs[i], b);
      assert Added(buffs, b)[i] == o;
      assert IsShield(o) <==> IsShield(b);
      assert IsShield(b) ==> o.p1 == b.p1 && o.p2 == buffs[i].p2;
    }
  }

  /** No cast of the run overdraws the shield that stands at that moment. */
  ghost predicate NeverOverdraws(buffs: seq<Buff>, ops: seq<Op>)
    decreases |ops|
  {
    ops == [] || (!(ops[0].Cast? && Overdraws(buffs, ops[0].b)) && NeverOverdraws(TableAfter(buffs, ops[0]), ops[1..]))
  }

  ghost predicate GenuineCasts(ops: seq<Op>) {
    forall i :: 0 <= i < |ops| && ops[i].Cast? ==> Genuine(ops[i].b)
  }

  lemma StepKeepsCastBySkill(buffs: seq<Buff>, op: Op)
    requires CastBySkill(buffs) && (op.Cast? ==> Genuine(op.b))
    ensures CastBySkill(TableAfter(buffs, op))
    ensures Whole(buffs) && !(op.Cast? && Overdraws(buffs, op.b)) ==> Whole(TableAfter(buffs, op))
  {
    match op
    case Cast(b, _) =>
      CastKeepsSkill(buffs, b);
      if Whole(buffs) {
        CastKeepsWholeIff(buffs, b);
      }
    case Pass(now) => WholePassed(buffs, now);
    case Dispel(_) => WholeFiltered(buffs, Dispellable);
    case Interrupt(_) => WholeFiltered(buffs, BreakableCast);
  }

  lemma CastKeepsSkill(buffs: seq<Buff>, b: Buff)
    requires CastBySkill(buffs) && Genuine(b)
    ensures CastBySkill(Added(buffs, b))
  {
    var table := if Interrupts(b) then Filtered(buffs, BreakableCast) else buffs;
    WholeFiltered(buffs, BreakableCast);
    WholeInserted(table, b);
  }

  /** So over any run of casts, passes, dispels and interruptions shields stay whole as long as no
      cast overdraws one. */
  lemma {:induction false} RunKeepsWhole(buffs: seq<Buff>, ops: seq<Op>)
    requires Whole(buffs) && CastBySkill(buffs) && GenuineCasts(ops) && NeverOverdraws(buffs, ops)
    ensures Whole(TableRun(buffs, ops)) && CastBySkill(TableRun(buffs, ops))
    decreases |ops|
  {
    if ops != [] {
      StepKeepsCastBySkill(buffs, ops[0]);
      RunKeepsWhole(TableAfter(buffs, ops[0]), ops[1..]);
    }
  }

  /** Casts get a shield into that state, because overriding does not raise the stored level: level 6
      over level 1, then, after 700 points of damage, level 2 again. */
  lemma WeakerCastAmplifies()
    ensures var first := Buff(BYSKILL, WuGuangZhiDun, 1, 0, 100, true, false, 250, 0, 0, 0);
      var strong := first.(level := 6, p1 := 800);
      var weak := first.(level := 2, p1 := 350);
      var struck := Struck(Added(Added([], first), strong), 700, 0);
      var after := Added(struck, weak);
      && Whole(struck) && Overdraws(struck, weak) && Overdrawn(after[0]) && Through(after, 1) == 351
  {
    var first := Buff(BYSKILL, WuGuangZhiDun, 1, 0, 100, true, false, 250, 0, 0, 0);
    var strong := first.(level := 6, p1 := 800);
    var weak := first.(level := 2, p1 := 350);
    assert Added([], first) == [first];
    assert FindSame([first], strong) == 0;
    assert Added([first], strong) == [first.(p1 := 800)];
    assert [first.(p1 := 800)][1..] == [];
    assert Struck([first.(p1 := 800)], 700, 0) == [first.(p1 := 800, p2 := 700)];
    var struck := [first.(p1 := 800, p2 := 700)];
    assert FindSame(struck, weak) == 0;
    assert Added(struck, weak) == [first.(p1 := 350, p2 := 700)];
    var after := Added(struck, weak);
    assert after[1..] == [];
    assert IsShield(after[0]) && after[0].p2 > after[0].p1;
  }
}
