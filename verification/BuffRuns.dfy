/** What holds of the buff table, and of the attributes it stands for, over whole runs. */
module BuffRuns {
  import opened BuffTable
  import opened RoleVitals

  // -------- the ledger

  /** Speed, hit, crit, damage taken, armour, attack power, and the exemption from bad magic. */
  predicate Plain(a: Attr) {
    a in {SpeedMod, AttackHit, AttackCrit, HurtAdd, DefenseArmor, AttackPowerAdd, ExemptBad}
  }

  predicate Counter(a: Attr) {
    a in {MoveLimit, PhysicalLimit, MagicLimit, PhysicalExempt, ExemptAll}
  }

  lemma {:induction false} FilterLeakIsMaximal(buffs: seq<Buff>, drop: Buff -> bool, a: Attr)
    requires a != HpMax && a != MpMax
    ensures FilterLeak(buffs, drop, a) == 0
  {
    if buffs != [] {
      FilterLeakIsMaximal(buffs[1..], drop, a);
    }
  }

  lemma {:induction false} PassLeakIsMaximal(buffs: seq<Buff>, now: int, a: Attr)
    requires a != HpMax && a != MpMax
    ensures PassLeak(buffs, now, a) == 0
  {
    if buffs != [] {
      PassLeakIsMaximal(buffs[1..], now, a);
    }
  }

  /** Whatever is cast, refreshed, overridden, interrupted, dispelled or runs out: these attributes
      never leave the sum of what the active buffs contribute. */
  lemma {:induction false} PlainLedgerIsExact(buffs: seq<Buff>, ops: seq<Op>, a: Attr)
    requires Plain(a)
    ensures LeakRun(buffs, ops, a) == 0
    decreases |ops|
  {
    if ops != [] {
      FilterLeakIsMaximal(buffs, Dispellable, a);
      if ops[0].Pass? {
        PassLeakIsMaximal(buffs, ops[0].now, a);
      }
      PlainLedgerIsExact(TableAfter(buffs, ops[0]), ops[1..], a);
    }
  }

  /** No skill casts the revival buff: only onRoleDead does, on a table it has just cleared. */
  ghost predicate NoRevivalCasts(ops: seq<Op>) {
    forall i :: 0 <= i < |ops| && ops[i].Cast? ==> !ops[i].b.Is(BYSKILL, FuHuo)
  }

  /** And so the limit and exemption counters do not leave it either, whatever else the table holds. */
  lemma {:induction false} CountersAreExact(buffs: seq<Buff>, ops: seq<Op>, a: Attr)
    requires Counter(a) && NoRevivalCasts(ops)
    ensures LeakRun(buffs, ops, a) == 0
    decreases |ops|
  {
    if ops != [] {
      FilterLeakIsMaximal(buffs, Dispellable, a);
      if ops[0].Pass? {
        PassLeakIsMaximal(buffs, ops[0].now, a);
      }
      CountersAreExact(TableAfter(buffs, ops[0]), ops[1..], a);
    }
  }

  function ExpiringSum(buffs: seq<Buff>, now: int, a: Attr): int {
    if buffs == [] then 0
    else (if buffs[0].endTime <= now then Weight(buffs[0], a) else 0) + ExpiringSum(buffs[1..], now, a)
  }

  function DroppedSum(buffs: seq<Buff>, drop: Buff -> bool, a: Attr): int {
    if buffs == [] then 0
    else (if drop(buffs[0]) then Weight(buffs[0], a) else 0) + DroppedSum(buffs[1..], drop, a)
  }

  /** What the buffs that a run ends, by running out or by being dispelled, had added to an attribute
      when they ended. */
  function EndedSum(buffs: seq<Buff>, ops: seq<Op>, a: Attr): int
    decreases |ops|
  {
    if ops == [] then 0
    else
      (match ops[0]
       case Cast(_, _) => 0
       case Pass(now) => ExpiringSum(buffs, now, a)
       case Dispel(_) => DroppedSum(buffs, Dispellable, a)
       case Interrupt(_) => 0)
      + EndedSum(TableAfter(buffs, ops[0]), ops[1..], a)
  }

  lemma {:induction false} PassLeaksTwice(buffs: seq<Buff>, now: int, a: Attr)
    requires a == HpMax || a == MpMax
    ensures PassLeak(buffs, now, a) == 2 * ExpiringSum(buffs, now, a)
  {
    if buffs != [] {
      PassLeaksTwice(buffs[1..], now, a);
    }
  }

  lemma {:induction false} FilterLeaksTwice(buffs: seq<Buff>, drop: Buff -> bool, a: Attr)
    requires a == HpMax || a == MpMax
    ensures FilterLeak(buffs, drop, a) == 2 * DroppedSum(buffs, drop, a)
  {
    if buffs != [] {
      FilterLeaksTwice(buffs[1..], drop, a);
    }
  }

  /** The end of a buff on a maximum adds its amount once more instead of taking it back. Over any run
      the maximum is off by twice the amounts that have ended; it is right if and only if they sum to
      nothing. */
  lemma {:induction false} MaximaLeakIff(buffs: seq<Buff>, ops: seq<Op>, a: Attr)
    requires a == HpMax || a == MpMax
    ensures LeakRun(buffs, ops, a) == 2 * EndedSum(buffs, ops, a)
    ensures LeakRun(buffs, ops, a) == 0 <==> EndedSum(buffs, ops, a) == 0
    decreases |ops|
  {
    if ops != [] {
      match ops[0] {
      case Cast(_, _) =>
      case Pass(now) => PassLeaksTwice(buffs, now, a);
      case Dispel(_) => FilterLeaksTwice(buffs, Dispellable, a);
      case Interrupt(_) =>
      }
      MaximaLeakIff(TableAfter(buffs, ops[0]), ops[1..], a);
    }
  }

  /** The first level of the blood skill on a role with 1000 hit points: 50 more for a time. */
  const BloodRage := Buff(MAXHP, XueXing, 1, 0, 100, true, true, 50, 0, 0, 0)

  /** When its time is up, and also when it is dispelled, the maximum is up by 100 for good. */
  lemma MaximaLeakHappens()
    ensures LeakRun([], [Cast(BloodRage, 0), Pass(100)], HpMax) == 100
    ensures LeakRun([], [Cast(BloodRage, 0), Dispel(10)], HpMax) == 100
  {
    var b := BloodRage;
    assert Added([], b) == [b];
    assert [b][1..] == [];
    assert Weight(b, HpMax) == 50;
    assert ExpiringSum([], 100, HpMax) == 0 && DroppedSum([], Dispellable, HpMax) == 0;
    assert ExpiringSum([b], 100, HpMax) == 50;
    assert DroppedSum([b], Dispellable, HpMax) == 50;
    EndAtOnce(b, Pass(100));
    EndAtOnce(b, Dispel(10));
  }

  lemma EndAtOnce(b: Buff, op: Op)
    ensures EndedSum([], [Cast(b, 0), op], HpMax) == EndedSum(Added([], b), [op], HpMax)
    ensures LeakRun([], [Cast(b, 0), op], HpMax) == 2 * EndedSum(Added([], b), [op], HpMax)
  {
    var ops := [Cast(b, 0), op];
    assert ops[1..] == [op];
    MaximaLeakIff([], ops, HpMax);
  }

  // -------- the table

  /** The order of two entries: by key, and never twice the same kind and skill unless it stacks. */
  predicate Before(b: Buff, c: Buff) {
    b.kind <= c.kind && (Same(b, c) ==> Stacks(b))
  }

  /** The table is in key order, with at most one buff of a kind and skill, but for the kinds that
      stack. */
  ghost predicate Disciplined(buffs: seq<Buff>) {
    forall i, j :: 0 <= i < j < |buffs| ==> Before(buffs[i], buffs[j])
  }

  lemma {:induction false} FilteredMembers(buffs: seq<Buff>, drop: Buff -> bool)
    ensures forall b :: b in Filtered(buffs, drop) <==> b in buffs && !drop(b)
  {
    if buffs != [] {
      FilteredMembers(buffs[1..], drop);
      assert buffs == [buffs[0]] + buffs[1..];
    }
  }

  lemma {:induction false} FilteredIsDisciplined(buffs: seq<Buff>, drop: Buff -> bool)
    requires Disciplined(buffs)
    ensures Disciplined(Filtered(buffs, drop))
  {
    if buffs != [] {
      FilteredIsDisciplined(buffs[1..], drop);
      FilteredMembers(buffs[1..], drop);
      var rest := Filtered(buffs[1..], drop);
      forall j | 0 <= j < |rest|
        ensures Before(buffs[0], rest[j])
      {
        assert rest[j] in rest;
        var k :| 0 <= k < |buffs[1..]| && buffs[1..][k] == rest[j];
        assert buffs[k + 1] == rest[j];
      }
    }
  }

  lemma {:induction false} PassedMembers(buffs: seq<Buff>, now: int, j: int) returns (i: int)
    requires 0 <= j < |Passed(buffs, now)|
    ensures 0 <= i < |buffs| && Passed(buffs, now)[j] == Ticked(buffs[i]) && buffs[i].endTime > now
  {
    if buffs[0].endTime <= now {
      i := PassedMembers(buffs[1..], now, j);
      i := i + 1;
    } else if j == 0 {
      i := 0;
    } else {
      i := PassedMembers(buffs[1..], now, j - 1);
      i := i + 1;
    }
  }

  /** After a pass nothing that has run out is left. */
  lemma {:induction false} NothingOverdue(buffs: seq<Buff>, now: int)
    ensures forall j :: 0 <= j < |Passed(buffs, now)| ==> Passed(buffs, now)[j].endTime > now
  {
    forall j | 0 <= j < |Passed(buffs, now)|
      ensures Passed(buffs, now)[j].endTime > now
    {
      var i := PassedMembers(buffs, now, j);
    }
  }

  lemma {:induction false} PassedIsDisciplined(buffs: seq<Buff>, now: int)
    requires Disciplined(buffs)
    ensures Disciplined(Passed(buffs, now))
  {
    if buffs != [] {
      PassedIsDisciplined(buffs[1..], now);
      var rest := Passed(buffs[1..], now);
      forall j | 0 <= j < |rest|
        ensures Before(Ticked(buffs[0]), rest[j])
      {
        var i := PassedMembers(buffs[1..], now, j);
        assert Before(buffs[0], buffs[i + 1]);
      }
    }
  }

  lemma {:induction false} PlaceSplits(buffs: seq<Buff>, kind: int)
    ensures var p := Place(buffs, kind);
      && (forall j :: 0 <= j < p ==> buffs[j].kind <= kind)
      && (p < |buffs| ==> buffs[p].kind > kind)
  {
    if buffs != [] && buffs[0].kind <= kind {
      PlaceSplits(buffs[1..], kind);
    }
  }

  lemma InsertedIsDisciplined(buffs: seq<Buff>, b: Buff)
    requires Disciplined(buffs)
    requires Stacks(b) || forall i :: 0 <= i < |buffs| ==> !Same(buffs[i], b)
    ensures Disciplined(Inserted(buffs, b))
  {
    var p := Place(buffs, b.kind);
    var s := Inserted(buffs, b);
    PlaceSplits(buffs, b.kind);
    forall i, j | 0 <= i < j < |s|
      ensures Before(s[i], s[j])
    {
      if i != p && j != p {
        assert s[i] == buffs[if i < p then i else i - 1] && s[j] == buffs[if j < p then j else j - 1];
      } else if i == p {
        assert s[i] == b && s[j] == buffs[j - 1];
        assert p < j - 1 ==> Before(buffs[p], buffs[j - 1]);
      } else {
        assert s[i] == buffs[i] && s[j] == b;
      }
    }
  }

  lemma AddedIsDisciplined(buffs: seq<Buff>, b: Buff)
    requires Disciplined(buffs)
    ensures Disciplined(Added(buffs, b))
  {
    var i := FindSame(buffs, b);
    if Stacks(b) || i == |buffs| {
      FilteredIsDisciplined(buffs, BreakableCast);
      FilteredMembers(buffs, BreakableCast);
      var table := if Interrupts(b) then Filtered(buffs, BreakableCast) else buffs;
      if !Stacks(b) {
        forall k | 0 <= k < |table|
          ensures !Same(table[k], b)
        {
          assert table[k] in buffs;
        }
      }
      InsertedIsDisciplined(table, b);
    }
  }

  /** Every run keeps the table in order and free of duplicates. */
  lemma {:induction false} RunKeepsDiscipline(buffs: seq<Buff>, ops: seq<Op>)
    requires Disciplined(buffs)
    ensures Disciplined(TableRun(buffs, ops))
    decreases |ops|
  {
    if ops != [] {
      match ops[0]
      case Cast(b, _) => AddedIsDisciplined(buffs, b); RunKeepsDiscipline(Added(buffs, b), ops[1..]);
      case Pass(now) => PassedIsDisciplined(buffs, now); RunKeepsDiscipline(Passed(buffs, now), ops[1..]);
      case Dispel(_) =>
        FilteredIsDisciplined(buffs, Dispellable);
        RunKeepsDiscipline(Filtered(buffs, Dispellable), ops[1..]);
      case Interrupt(_) =>
        FilteredIsDisciplined(buffs, BreakableCast);
        RunKeepsDiscipline(Filtered(buffs, BreakableCast), ops[1..]);
    }
  }

  /** A stun, root or silence ends every breakable cast, but only when the role is not already under
      one like it: otherwise all casts go on. */
  lemma InterruptsIff(buffs: seq<Buff>, b: Buff)
    requires Interrupts(b) && exists c :: c in buffs && BreakableCast(c)
    ensures (forall c :: c in Added(buffs, b) ==> !BreakableCast(c)) <==> FindSame(buffs, b) == |buffs|
  {
    var i := FindSame(buffs, b);
    if i == |buffs| {
      FilteredMembers(buffs, BreakableCast);
      var table := Filtered(buffs, BreakableCast);
      var p := Place(table, b.kind);
      forall c | c in Inserted(table, b)
        ensures !BreakableCast(c)
      {
        assert c == b || c in table;
      }
    } else {
      var c :| c in buffs && BreakableCast(c);
      var k :| 0 <= k < |buffs| && buffs[k] == c;
      assert k != i;
      assert Added(buffs, b)[k] == c;
    }
  }

  // -------- running

  function TickedTimes(b: Buff, n: nat): Buff {
    if n == 0 then b else Ticked(TickedTimes(b, n - 1))
  }

  function Firings(b: Buff, n: nat): nat {
    if n == 0 then 0 else Firings(b, n - 1) + if Fires(TickedTimes(b, n - 1)) then 1 else 0
  }

  /** A buff that lives through n passes has run once for every runTimeLimit of them; what is over
      stands in its counter. */
  lemma {:induction false} FiresEveryLimit(b: Buff, n: nat)
    requires b.runTimeLimit > 0 && b.runCounter == 0
    ensures Firings(b, n) == n / b.runTimeLimit
    ensures TickedTimes(b, n).runCounter == n % b.runTimeLimit
    ensures TickedTimes(b, n).runTimeLimit == b.runTimeLimit
  {
    if n > 0 {
      FiresEveryLimit(b, n - 1);
      NextMultiple(n - 1, b.runTimeLimit);
    }
  }

  lemma NextMultiple(n: nat, d: nat)
    requires d > 0
    ensures n % d + 1 == d ==> (n + 1) / d == n / d + 1 && (n + 1) % d == 0
    ensures n % d + 1 < d ==> (n + 1) / d == n / d && (n + 1) % d == n % d + 1
  {
    var q, r := n / d, n % d;
    assert n == d * q + r;
    if r + 1 == d {
      assert n + 1 == d * (q + 1) + 0;
      DivisionIsUnique(n + 1, d, q + 1, 0);
    } else {
      DivisionIsUnique(n + 1, d, q, r + 1);
    }
  }

  lemma DivisionIsUnique(n: nat, d: nat, q: nat, r: nat)
    requires d > 0 && n == d * q + r && r < d
    ensures n / d == q && n % d == r
  {
    var p, s := n / d, n % d;
    assert d * (p - q) == r - s;
    if p < q {
      ProductAtLeast(d, q - p);
    } else if p > q {
      ProductAtLeast(d, p - q);
    }
  }

  lemma ProductAtLeast(d: nat, k: nat)
    requires k >= 1
    ensures d * k >= d
  {
  }

  /** What one sees of it: the counter-whirl buff gains one charge per firing. */
  lemma {:induction false} WhirlGainsCharges(b: Buff, n: nat)
    requires b.Is(BYSKILL, FanJiLuoXuan)
    ensures TickedTimes(b, n).Is(BYSKILL, FanJiLuoXuan)
    ensures TickedTimes(b, n).p2 == b.p2 + Firings(b, n)
  {
    if n > 0 {
      WhirlGainsCharges(b, n - 1);
    }
  }

  // -------- hit points

  /** Shares lie between nothing and everything, curses do not heal, and maxima are not lowered. */
  predicate Proper(b: Buff) {
    && (b.Is(BYSKILL, FuHuo) ==> 0 <= b.p1 <= 100)
    && (b.Is(BYSKILL, ZuZhou) ==> 0 <= b.p1 && 0 <= b.p2)
    && (b.kind == MAXHP ==> 0 <= b.p1)
  }

  ghost predicate AllProper(buffs: seq<Buff>) {
    forall b :: b in buffs ==> Proper(b)
  }

  /** Hit points do not exceed their maximum, which covers what the active buffs add to it. */
  ghost predicate WithinMax(buffs: seq<Buff>, v: Vitals) {
    AllProper(buffs) && v.hp <= v.hpMax && Total(buffs, HpMax) <= v.hpMax
  }

  lemma ShareIsBelow(whole: nat, share: nat)
    requires share <= 100
    ensures 0 <= Quotient(whole * share, 100) <= whole
  {
    assert 0 <= whole * share <= whole * 100;
  }

  /** Ending one buff; rest stands for what the other buffs add to the maximum. */
  lemma EndKeepsHp(b: Buff, v: Vitals, rest: nat)
    requires Proper(b) && v.hp <= v.hpMax && rest + Weight(b, HpMax) <= v.hpMax
    ensures Ended(b, v).hp <= Ended(b, v).hpMax && rest <= Ended(b, v).hpMax
  {
    if b.Is(BYSKILL, FuHuo) {
      ShareIsBelow(v.hpMax, b.p1);
    }
    if b.Is(BYSKILL, ZuZhou) {
      assert Remainder(b.p1, 100) * b.p2 >= 0;
    }
  }

  lemma {:induction false} TotalIsNatural(buffs: seq<Buff>)
    requires AllProper(buffs)
    ensures Total(buffs, HpMax) >= 0
  {
    if buffs != [] {
      assert Proper(buffs[0]);
      TotalIsNatural(buffs[1..]);
    }
  }

  lemma {:induction false} PassKeepsHp(buffs: seq<Buff>, now: int, v: Vitals, rest: nat)
    requires AllProper(buffs) && v.hp <= v.hpMax && rest + Total(buffs, HpMax) <= v.hpMax
    ensures var w := PassedOn(buffs, now, v);
      w.hp <= w.hpMax && rest + Total(Passed(buffs, now), HpMax) <= w.hpMax
    ensures AllProper(Passed(buffs, now))
  {
    if buffs != [] {
      var b, w := Ticked(buffs[0]), TickedOn(buffs[0], v);
      assert Proper(buffs[0]);
      WeightIgnoresTicks(buffs[0], HpMax);
      TotalIsNatural(buffs[1..]);
      if buffs[0].endTime <= now {
        EndKeepsHp(b, w, rest + Total(buffs[1..], HpMax));
        PassKeepsHp(buffs[1..], now, Ended(b, w), rest);
        assert Passed(buffs, now) == Passed(buffs[1..], now);
      } else {
        PassKeepsHp(buffs[1..], now, w, rest + Weight(b, HpMax));
        assert Passed(buffs, now)[1..] == Passed(buffs[1..], now);
      }
    }
  }

  lemma {:induction false} FilterKeepsHp(buffs: seq<Buff>, drop: Buff -> bool, v: Vitals, rest: nat)
    requires AllProper(buffs) && v.hp <= v.hpMax && rest + Total(buffs, HpMax) <= v.hpMax
    ensures var w := FilteredOn(buffs, drop, v);
      w.hp <= w.hpMax && rest + Total(Filtered(buffs, drop), HpMax) <= w.hpMax
    ensures AllProper(Filtered(buffs, drop))
  {
    if buffs != [] {
      var b := buffs[0];
      assert Proper(b);
      TotalIsNatural(buffs[1..]);
      if drop(b) {
        EndKeepsHp(b, v, rest + Total(buffs[1..], HpMax));
        FilterKeepsHp(buffs[1..], drop, Ended(b, v), rest);
        assert Filtered(buffs, drop) == Filtered(buffs[1..], drop);
      } else {
        FilterKeepsHp(buffs[1..], drop, v, rest + Weight(b, HpMax));
        assert Filtered(buffs, drop)[1..] == Filtered(buffs[1..], drop);
      }
    }
  }

  lemma CastKeepsHp(buffs: seq<Buff>, b: Buff, v: Vitals)
    requires WithinMax(buffs, v) && Proper(b)
    ensures WithinMax(Added(buffs, b), CastOn(buffs, b, v))
  {
    var i := FindSame(buffs, b);
    if Stacks(b) || i == |buffs| {
      var table := if Interrupts(b) then Filtered(buffs, BreakableCast) else buffs;
      FilterKeepsHp(buffs, BreakableCast, v, 0);
      InterruptsAreHarmless(buffs, v);
      TotalOfInserted(table, b, HpMax);
    } else {
      assert Proper(buffs[i]);
      RefreshIsNeutral(buffs, i, b.endTime);
      OverrideTotals(buffs, i, b);
    }
  }

  /** Whatever the order of healing, curses, revivals and raised maxima: as long as buffs keep to
      their meaning, no run lifts the hit points over the maximum. */
  lemma {:induction false} RunKeepsHpWithinMax(buffs: seq<Buff>, ops: seq<Op>, v: Vitals)
    requires WithinMax(buffs, v)
    requires forall i :: 0 <= i < |ops| && ops[i].Cast? ==> Proper(ops[i].b)
    ensures WithinMax(TableRun(buffs, ops), VitalsRun(buffs, ops, v))
    decreases |ops|
  {
    if ops != [] {
      match ops[0] {
      case Cast(b, _) => CastKeepsHp(buffs, b, v);
      case Pass(now) => PassKeepsHp(buffs, now, v, 0);
      case Dispel(_) => FilterKeepsHp(buffs, Dispellable, v, 0);
      case Interrupt(_) =>
        FilterKeepsHp(buffs, BreakableCast, v, 0);
        InterruptsAreHarmless(buffs, v);
      }
      RunKeepsHpWithinMax(TableAfter(buffs, ops[0]), ops[1..], VitalsAfter(buffs, ops[0], v));
    }
  }
}
