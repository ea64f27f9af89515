/** The active buffs of a role, what each of them contributes to the role's attributes, and what
    the operations do to the table. */
module BuffTable {

  const BYSKILL := 3000
  const CALL := 3001
  const XUANYUN := 3002
  const MOVESPEED := 3003
  const NOMOVE := 3004
  const HP := 3006
  const MP := 3007
  const ARMOR := 3008
  const CASTSKILL := 3009
  const ATTACKPOWER := 3010
  const MAXHP := 3011
  const MAXMP := 3012
  const NOSKILL := 3013

  const YaoShu := 203
  const JianRenFengBao := 204
  const WuGuangZhiDun := 209
  const FanJiLuoXuan := 210
  const PaoXiao := 213
  const XueXing := 214
  const ChongFeng := 222
  const ZuiJiuYunWu := 223
  const WuDiZhan := 224
  const ZuZhou := 225
  const SheShouTianFu := 230
  const FuHuo := 236

  datatype Buff = Buff(
    kind: int, parentSkill: int, level: int, beginTime: int, endTime: int, canBreak: bool, relative: bool,
    p1: int, p2: int, runCounter: nat, runTimeLimit: nat)
  {
    predicate Is(k: int, skill: int) {
      kind == k && parentSkill == skill
    }
  }

  /** The attributes that buffs change. */
  datatype Attr =
    | SpeedMod | AttackHit | AttackCrit | HurtAdd | DefenseArmor | AttackPowerAdd | ExemptBad
    | MoveLimit | PhysicalLimit | MagicLimit | PhysicalExempt | ExemptAll
    | HpMax | MpMax

  function Quotient(a: int, b: int): int
    requires b > 0
  {
    if a >= 0 then a / b else -((-a) / b)
  }

  function Remainder(a: int, b: int): int
    requires b > 0
  {
    a - b * Quotient(a, b)
  }

  function Flag(b: bool): int {
    if b then 1 else 0
  }

  /** What an active buff adds to an attribute. */
  function Weight(b: Buff, a: Attr): int {
    match a
    case SpeedMod =>
      if b.Is(BYSKILL, ZuiJiuYunWu) || b.Is(BYSKILL, YaoShu) || b.kind == MOVESPEED then b.p1 else 0
    case AttackHit => if b.Is(BYSKILL, ZuiJiuYunWu) || b.Is(BYSKILL, SheShouTianFu) then b.p2 else 0
    case AttackCrit => if b.Is(BYSKILL, SheShouTianFu) then b.p1 else 0
    case HurtAdd => if b.Is(BYSKILL, ZuZhou) then Quotient(b.p1, 100) else 0
    case DefenseArmor => if b.kind == ARMOR then b.p1 else 0
    case AttackPowerAdd => if b.kind == ATTACKPOWER then b.p1 else 0
    case ExemptBad => Flag(b.Is(CASTSKILL, JianRenFengBao))
    case MoveLimit => Flag(Helpless(b) || b.kind == XUANYUN || b.kind == NOMOVE)
    case PhysicalLimit =>
      Flag(Helpless(b) || b.kind == XUANYUN || b.Is(BYSKILL, YaoShu) || b.Is(CASTSKILL, JianRenFengBao))
    case MagicLimit =>
      Flag(Helpless(b) || b.kind == XUANYUN || b.kind == NOSKILL || b.Is(BYSKILL, YaoShu) ||
           b.Is(CASTSKILL, JianRenFengBao))
    case PhysicalExempt => Flag(Helpless(b))
    case ExemptAll => Flag(Helpless(b))
    case HpMax => if b.kind == MAXHP then b.p1 else 0
    case MpMax => if b.kind == MAXMP then b.p1 else 0
  }

  /** Casting one of the two charges, or waiting to be revived: untouchable, and unable to act. */
  predicate Helpless(b: Buff) {
    b.Is(BYSKILL, FuHuo) || b.Is(CASTSKILL, WuDiZhan) || b.Is(CASTSKILL, ChongFeng)
  }

  /** The sum that a cached attribute stands for. */
  function Total(buffs: seq<Buff>, a: Attr): int {
    if buffs == [] then 0 else Weight(buffs[0], a) + Total(buffs[1..], a)
  }

  lemma {:induction false} TotalOfConcat(s: seq<Buff>, t: seq<Buff>, a: Attr)
    ensures Total(s + t, a) == Total(s, a) + Total(t, a)
  {
    if s == [] {
      assert s + t == t;
    } else {
      assert (s + t)[1..] == s[1..] + t;
      TotalOfConcat(s[1..], t, a);
    }
  }

  lemma TotalWithout(buffs: seq<Buff>, i: int, a: Attr)
    requires 0 <= i < |buffs|
    ensures Total(buffs[..i] + buffs[i + 1..], a) == Total(buffs, a) - Weight(buffs[i], a)
  {
    TotalOfConcat(buffs[..i], buffs[i..], a);
    TotalOfConcat(buffs[..i], buffs[i + 1..], a);
    assert buffs == buffs[..i] + buffs[i..];
    assert buffs[i..][1..] == buffs[i + 1..];
  }

  lemma TotalsWithout(buffs: seq<Buff>, i: int)
    requires 0 <= i < |buffs|
    ensures forall a :: Total(buffs[..i] + buffs[i + 1..], a) == Total(buffs, a) - Weight(buffs[i], a)
  {
    forall a
      ensures Total(buffs[..i] + buffs[i + 1..], a) == Total(buffs, a) - Weight(buffs[i], a)
    {
      TotalWithout(buffs, i, a);
    }
  }

  lemma TotalWithUpdate(buffs: seq<Buff>, i: int, b: Buff, a: Attr)
    requires 0 <= i < |buffs|
    ensures Total(buffs[i := b], a) == Total(buffs, a) - Weight(buffs[i], a) + Weight(b, a)
  {
    TotalWithout(buffs, i, a);
    TotalWithout(buffs[i := b], i, a);
    assert buffs[i := b][..i] == buffs[..i] && buffs[i := b][i + 1..] == buffs[i + 1..];
  }

  // -------- adding

  /** Only these kinds may stack. */
  predicate Stacks(b: Buff) {
    b.kind == HP || b.kind == MP
  }

  predicate Same(b: Buff, c: Buff) {
    b.kind == c.kind && b.parentSkill == c.parentSkill
  }

  /** The first buff of the same kind and skill, or the length of the table. */
  function FindSame(buffs: seq<Buff>, b: Buff): (i: nat)
    ensures i <= |buffs| && (i < |buffs| ==> Same(buffs[i], b))
    ensures forall j :: 0 <= j < i ==> !Same(buffs[j], b)
  {
    if buffs == [] then 0 else if Same(buffs[0], b) then 0 else 1 + FindSame(buffs[1..], b)
  }

  /** Where the multimap puts a new entry: after all entries with a key up to its own. */
  function Place(buffs: seq<Buff>, kind: int): (i: nat)
    ensures i <= |buffs|
  {
    if buffs == [] || buffs[0].kind > kind then 0 else 1 + Place(buffs[1..], kind)
  }

  function Inserted(buffs: seq<Buff>, b: Buff): seq<Buff> {
    buffs[..Place(buffs, b.kind)] + [b] + buffs[Place(buffs, b.kind)..]
  }

  /** Stun, root and silence interrupt what the role is casting. */
  predicate Interrupts(b: Buff) {
    b.kind == XUANYUN || b.kind == NOMOVE || b.kind == NOSKILL
  }

  predicate BreakableCast(b: Buff) {
    b.kind == CASTSKILL && b.canBreak
  }

  predicate Dispellable(b: Buff) {
    b.canBreak && b.kind != CASTSKILL
  }

  function Filtered(buffs: seq<Buff>, drop: Buff -> bool): seq<Buff> {
    if buffs == [] then []
    else (if drop(buffs[0]) then [] else [buffs[0]]) + Filtered(buffs[1..], drop)
  }

  /** What a stored buff takes over from a stronger one. Its level stays as it was. */
  function Overridden(stored: Buff, b: Buff): Buff {
    var takesP1 := b.kind in {MOVESPEED, ARMOR, ATTACKPOWER, MAXHP, MAXMP} || (b.kind == BYSKILL &&
      b.parentSkill in {ZuiJiuYunWu, ZuZhou, WuGuangZhiDun, FanJiLuoXuan, YaoShu, SheShouTianFu});
    var takesP2 := b.kind == BYSKILL && b.parentSkill in {ZuiJiuYunWu, FanJiLuoXuan, SheShouTianFu};
    stored.(endTime := b.endTime,
            p1 := if takesP1 then b.p1 else stored.p1,
            p2 := if takesP2 then b.p2 else stored.p2)
  }

  /** The table after a buff has been cast on the role. */
  function Added(buffs: seq<Buff>, b: Buff): seq<Buff> {
    var i := FindSame(buffs, b);
    if Stacks(b) || i == |buffs| then
      Inserted(if Interrupts(b) then Filtered(buffs, BreakableCast) else buffs, b)
    else if buffs[i].level > b.level then buffs
    else if buffs[i].level == b.level then buffs[i := buffs[i].(endTime := b.endTime)]
    else buffs[i := Overridden(buffs[i], b)]
  }

  predicate Overrides(buffs: seq<Buff>, b: Buff) {
    var i := FindSame(buffs, b);
    !Stacks(b) && i < |buffs| && buffs[i].level < b.level
  }

  lemma TotalOfInserted(buffs: seq<Buff>, b: Buff, a: Attr)
    ensures Total(Inserted(buffs, b), a) == Total(buffs, a) + Weight(b, a)
  {
    var i := Place(buffs, b.kind);
    assert Inserted(buffs, b)[..i] + Inserted(buffs, b)[i + 1..] == buffs;
    TotalWithout(Inserted(buffs, b), i, a);
  }

  lemma WeightIgnoresTime(b: Buff, endTime: int, a: Attr)
    ensures Weight(b.(endTime := endTime), a) == Weight(b, a)
  {
  }

  lemma RefreshIsNeutral(buffs: seq<Buff>, at: int, endTime: int)
    requires 0 <= at < |buffs|
    ensures forall a :: Total(buffs[at := buffs[at].(endTime := endTime)], a) == Total(buffs, a)
  {
    forall a
      ensures Total(buffs[at := buffs[at].(endTime := endTime)], a) == Total(buffs, a)
    {
      TotalWithUpdate(buffs, at, buffs[at].(endTime := endTime), a);
      WeightIgnoresTime(buffs[at], endTime, a);
    }
  }

  lemma OverrideTotals(buffs: seq<Buff>, at: int, b: Buff)
    requires 0 <= at < |buffs|
    ensures forall a ::
      Total(buffs[at := Overridden(buffs[at], b)], a) ==
        Total(buffs, a) - Weight(buffs[at], a) + Weight(Overridden(buffs[at], b), a)
  {
    forall a
      ensures Total(buffs[at := Overridden(buffs[at], b)], a) ==
        Total(buffs, a) - Weight(buffs[at], a) + Weight(Overridden(buffs[at], b), a)
    {
      TotalWithUpdate(buffs, at, Overridden(buffs[at], b), a);
    }
  }

  // -------- time

  /** One pass over a buff: it counts, and runs when the count reaches its limit. */
  function Ticked(b: Buff): Buff {
    if b.runTimeLimit == 0 then b
    else if b.runCounter + 1 >= b.runTimeLimit then Ran(b).(runCounter := 0)
    else b.(runCounter := b.runCounter + 1)
  }

  /** What running does to the buff itself. */
  function Ran(b: Buff): Buff {
    if b.Is(BYSKILL, FanJiLuoXuan) then b.(p2 := b.p2 + 1) else b
  }

  /** The table after one pass at time now: everything ticks, and what has run out is gone. */
  function Passed(buffs: seq<Buff>, now: int): seq<Buff> {
    if buffs == [] then []
    else (if buffs[0].endTime <= now then [] else [Ticked(buffs[0])]) + Passed(buffs[1..], now)
  }

  // -------- what the code gets wrong

  /** Removing a buff that raised a maximum raises it once more. */
  function RemovalLeak(b: Buff, a: Attr): int {
    if (b.kind == MAXHP && a == HpMax) || (b.kind == MAXMP && a == MpMax) then 2 * b.p1 else 0
  }

  /** Overriding a revival buff would count its limits and exemptions again, for want of a test. The
      server never overrides one. */
  function AddLeak(buffs: seq<Buff>, b: Buff, a: Attr): int {
    if Overrides(buffs, b) && b.Is(BYSKILL, FuHuo) then Weight(b, a) else 0
  }

  function FilterLeak(buffs: seq<Buff>, drop: Buff -> bool, a: Attr): int {
    if buffs == [] then 0
    else (if drop(buffs[0]) then RemovalLeak(buffs[0], a) else 0) + FilterLeak(buffs[1..], drop, a)
  }

  function PassLeak(buffs: seq<Buff>, now: int, a: Attr): int {
    if buffs == [] then 0
    else (if buffs[0].endTime <= now then RemovalLeak(buffs[0], a) else 0) + PassLeak(buffs[1..], now, a)
  }

  // -------- the loops over the table, one buff at a time

  /** Filtering from index i on: the buff at i is kept, or dropped with its leak. */
  lemma FilterStep(buffs: seq<Buff>, i: int, drop: Buff -> bool)
    requires 0 <= i < |buffs|
    ensures !drop(buffs[i]) ==>
      buffs[..i] + Filtered(buffs[i..], drop) == buffs[..i + 1] + Filtered(buffs[i + 1..], drop)
    ensures var rest := buffs[..i] + buffs[i + 1..];
      && rest[..i] == buffs[..i] && rest[i..] == buffs[i + 1..]
      && (drop(buffs[i]) ==> rest[..i] + Filtered(rest[i..], drop) == buffs[..i] + Filtered(buffs[i..], drop))
    ensures forall a ::
      FilterLeak(buffs[i..], drop, a) ==
        FilterLeak(buffs[i + 1..], drop, a) + if drop(buffs[i]) then RemovalLeak(buffs[i], a) else 0
  {
    assert buffs[i..][1..] == buffs[i + 1..];
  }

  /** A pass from index i on: the buff at i ticks, and is kept or dropped with its leak. */
  lemma PassStep(buffs: seq<Buff>, i: int, now: int)
    requires 0 <= i < |buffs|
    ensures var ticked := buffs[i := Ticked(buffs[i])];
      && ticked[i].endTime == buffs[i].endTime && ticked[i + 1..] == buffs[i + 1..]
      && (buffs[i].endTime > now ==>
            ticked[..i + 1] + Passed(ticked[i + 1..], now) == buffs[..i] + Passed(buffs[i..], now))
    ensures var rest := buffs[i := Ticked(buffs[i])][..i] + buffs[i := Ticked(buffs[i])][i + 1..];
      && rest[i..] == buffs[i + 1..]
      && (buffs[i].endTime <= now ==> rest[..i] + Passed(rest[i..], now) == buffs[..i] + Passed(buffs[i..], now))
    ensures forall a :: RemovalLeak(Ticked(buffs[i]), a) == RemovalLeak(buffs[i], a)
    ensures forall a ::
      PassLeak(buffs[i..], now, a) ==
        PassLeak(buffs[i + 1..], now, a) + if buffs[i].endTime <= now then RemovalLeak(buffs[i], a) else 0
  {
    assert buffs[i..][1..] == buffs[i + 1..];
  }

  lemma WeightIgnoresTicks(b: Buff, a: Attr)
    ensures Weight(Ticked(b), a) == Weight(b, a)
  {
  }

  lemma TickIsNeutral(buffs: seq<Buff>, i: int)
    requires 0 <= i < |buffs|
    ensures forall a :: Total(buffs[i := Ticked(buffs[i])], a) == Total(buffs, a)
  {
    forall a
      ensures Total(buffs[i := Ticked(buffs[i])], a) == Total(buffs, a)
    {
      TotalWithUpdate(buffs, i, Ticked(buffs[i]), a);
      WeightIgnoresTicks(buffs[i], a);
    }
  }

  // -------- runs

  datatype Op = Cast(b: Buff, castAt: int) | Pass(now: int) | Dispel(dispelAt: int) | Interrupt(interruptAt: int)

  function TableAfter(buffs: seq<Buff>, op: Op): seq<Buff> {
    match op
    case Cast(b, _) => Added(buffs, b)
    case Pass(now) => Passed(buffs, now)
    case Dispel(_) => Filtered(buffs, Dispellable)
    case Interrupt(_) => Filtered(buffs, BreakableCast)
  }

  function LeakOf(buffs: seq<Buff>, op: Op, a: Attr): int {
    match op
    case Cast(b, _) => AddLeak(buffs, b, a)
    case Pass(now) => PassLeak(buffs, now, a)
    case Dispel(_) => FilterLeak(buffs, Dispellable, a)
    case Interrupt(_) => 0
  }

  function TableRun(buffs: seq<Buff>, ops: seq<Op>): seq<Buff>
    decreases |ops|
  {
    if ops == [] then buffs else TableRun(TableAfter(buffs, ops[0]), ops[1..])
  }

  function LeakRun(buffs: seq<Buff>, ops: seq<Op>, a: Attr): int
    decreases |ops|
  {
    if ops == [] then 0 else LeakOf(buffs, ops[0], a) + LeakRun(TableAfter(buffs, ops[0]), ops[1..], a)
  }
}
