/** One buff over a whole run: what becomes of it, and how often it runs. */
module BuffLife {
  import opened BuffTable
  import opened RoleVitals
  import opened BuffRuns

  /** What an operation makes of a buff that outlives it. */
  function VersionAfter(b: Buff, op: Op): Buff {
    match op
    case Cast(c, _) =>
      if Stacks(b) || !Same(b, c) || b.level > c.level then b
      else if b.level == c.level then b.(endTime := c.endTime)
      else Overridden(b, c)
    case Pass(_) => Ticked(b)
    case Dispel(_) => b
    case Interrupt(_) => b
  }

  predicate Outlives(buffs: seq<Buff>, b: Buff, op: Op) {
    match op
    case Cast(c, _) => !(BreakableCast(b) && Interrupts(c) && FindSame(buffs, c) == |buffs|)
    case Pass(now) => b.endTime > now
    case Dispel(_) => !Dispellable(b)
    case Interrupt(_) => !BreakableCast(b)
  }

  ghost predicate LivesThrough(buffs: seq<Buff>, b: Buff, ops: seq<Op>)
    decreases |ops|
  {
    ops == [] ||
    (Outlives(buffs, b, ops[0]) && LivesThrough(TableAfter(buffs, ops[0]), VersionAfter(b, ops[0]), ops[1..]))
  }

  function VersionRun(b: Buff, ops: seq<Op>): Buff
    decreases |ops|
  {
    if ops == [] then b else VersionRun(VersionAfter(b, ops[0]), ops[1..])
  }

  function Passes(ops: seq<Op>): nat {
    if ops == [] then 0 else (if ops[0].Pass? then 1 else 0) + Passes(ops[1..])
  }

  /** How often the passes of a run run the buff. */
  function FiringsIn(b: Buff, ops: seq<Op>): nat
    decreases |ops|
  {
    if ops == [] then 0
    else (if ops[0].Pass? && Fires(b) then 1 else 0) + FiringsIn(VersionAfter(b, ops[0]), ops[1..])
  }

  lemma SameIsFound(buffs: seq<Buff>, b: Buff, c: Buff, k: int)
    requires Disciplined(buffs) && 0 <= k < |buffs| && buffs[k] == b && Same(b, c) && !Stacks(b)
    ensures FindSame(buffs, c) == k
  {
    var i := FindSame(buffs, c);
    assert i < k ==> Before(buffs[i], buffs[k]);
  }

  lemma KeptByInsertion(table: seq<Buff>, b: Buff, c: Buff)
    requires b in table
    ensures b in Inserted(table, c)
  {
    var p := Place(table, c.kind);
    assert table == table[..p] + table[p..];
  }

  lemma KeptByCast(buffs: seq<Buff>, b: Buff, c: Buff)
    requires Disciplined(buffs) && b in buffs
    requires !(BreakableCast(b) && Interrupts(c) && FindSame(buffs, c) == |buffs|)
    ensures VersionAfter(b, Cast(c, 0)) in Added(buffs, c)
  {
    var k :| 0 <= k < |buffs| && buffs[k] == b;
    var i := FindSame(buffs, c);
    if Same(b, c) && !Stacks(b) {
      SameIsFound(buffs, b, c, k);
      assert Added(buffs, c)[k] == VersionAfter(b, Cast(c, 0));
    } else if Stacks(c) || i == |buffs| {
      FilteredMembers(buffs, BreakableCast);
      KeptByInsertion(if Interrupts(c) then Filtered(buffs, BreakableCast) else buffs, b, c);
    } else {
      assert k != i;
      assert Added(buffs, c)[k] == b;
    }
  }

  lemma {:induction false} KeptByPass(buffs: seq<Buff>, b: Buff, now: int)
    requires b in buffs && b.endTime > now
    ensures Ticked(b) in Passed(buffs, now)
  {
    if b != buffs[0] {
      assert buffs == [buffs[0]] + buffs[1..];
      KeptByPass(buffs[1..], b, now);
    }
  }

  lemma KeptByOp(buffs: seq<Buff>, b: Buff, op: Op)
    requires Disciplined(buffs) && b in buffs && Outlives(buffs, b, op)
    ensures VersionAfter(b, op) in TableAfter(buffs, op) && Disciplined(TableAfter(buffs, op))
  {
    match op
    case Cast(c, _) => KeptByCast(buffs, b, c); AddedIsDisciplined(buffs, c);
    case Pass(now) => KeptByPass(buffs, b, now); PassedIsDisciplined(buffs, now);
    case Dispel(_) => FilteredMembers(buffs, Dispellable); FilteredIsDisciplined(buffs, Dispellable);
    case Interrupt(_) => FilteredMembers(buffs, BreakableCast); FilteredIsDisciplined(buffs, BreakableCast);
  }

  /** Refreshing and overriding leave a buff's counter and limit alone; a pass counts. */
  lemma KeptCounts(b: Buff, op: Op)
    requires b.runCounter < b.runTimeLimit
    ensures var c := VersionAfter(b, op);
      && c.runTimeLimit == b.runTimeLimit && c.runCounter < c.runTimeLimit
      && c.runCounter == (if !op.Pass? then b.runCounter else if Fires(b) then 0 else b.runCounter + 1)
      && (op.Pass? && Fires(b) ==> b.runCounter + 1 == b.runTimeLimit)
  {
  }

  /** The passes that the firings of a run have used up. */
  function UsedUp(b: Buff, ops: seq<Op>): nat
    decreases |ops|
  {
    if ops == [] then 0
    else (if ops[0].Pass? && Fires(b) then b.runTimeLimit else 0) + UsedUp(VersionAfter(b, ops[0]), ops[1..])
  }

  lemma {:induction false} UsedUpIsProduct(b: Buff, ops: seq<Op>)
    requires b.runCounter < b.runTimeLimit
    ensures UsedUp(b, ops) == b.runTimeLimit * FiringsIn(b, ops)
    decreases |ops|
  {
    if ops != [] {
      KeptCounts(b, ops[0]);
      UsedUpIsProduct(VersionAfter(b, ops[0]), ops[1..]);
    }
  }

  lemma {:induction false} RunCounts(b: Buff, ops: seq<Op>)
    requires b.runCounter < b.runTimeLimit
    ensures var c := VersionRun(b, ops);
      && c.runTimeLimit == b.runTimeLimit && c.runCounter < b.runTimeLimit
      && UsedUp(b, ops) + c.runCounter == b.runCounter + Passes(ops)
    decreases |ops|
  {
    if ops != [] {
      KeptCounts(b, ops[0]);
      RunCounts(VersionAfter(b, ops[0]), ops[1..]);
    }
  }

  lemma {:induction false} RunKeepsBuff(buffs: seq<Buff>, b: Buff, ops: seq<Op>)
    requires Disciplined(buffs) && b in buffs && LivesThrough(buffs, b, ops)
    ensures VersionRun(b, ops) in TableRun(buffs, ops)
    decreases |ops|
  {
    if ops != [] {
      KeptByOp(buffs, b, ops[0]);
      RunKeepsBuff(TableAfter(buffs, ops[0]), VersionAfter(b, ops[0]), ops[1..]);
    }
  }

  /** A buff that lives through a run, whatever is cast, refreshed, overridden, dispelled or interrupted
      in between, is still in the table, has run once for every runTimeLimit passes, and has what is
      over in its counter. */
  lemma FiresInRun(buffs: seq<Buff>, b: Buff, ops: seq<Op>)
    requires Disciplined(buffs) && b in buffs && LivesThrough(buffs, b, ops)
    requires b.runTimeLimit > 0 && b.runCounter == 0
    ensures VersionRun(b, ops) in TableRun(buffs, ops)
    ensures FiringsIn(b, ops) == Passes(ops) / b.runTimeLimit
    ensures VersionRun(b, ops).runCounter == Passes(ops) % b.runTimeLimit
  {
    RunKeepsBuff(buffs, b, ops);
    RunCounts(b, ops);
    UsedUpIsProduct(b, ops);
    DivisionIsUnique(Passes(ops), b.runTimeLimit, FiringsIn(b, ops), VersionRun(b, ops).runCounter);
  }

  // -------- a heal over time

  ghost predicate PassesBefore(ops: seq<Op>, endTime: int) {
    forall i :: 0 <= i < |ops| ==> ops[i].Pass? && ops[i].now < endTime
  }

  function Atmost(max: int, hp: int): int {
    if hp <= max then hp else max
  }

  lemma LonePass(b: Buff, now: int, v: Vitals)
    requires now < b.endTime
    ensures Passed([b], now) == [Ticked(b)] && PassedOn([b], now, v) == TickedOn(b, v)
    ensures !PassFells([b], now, v)
  {
    assert [b][1..] == [];
  }

  lemma LoneEnd(b: Buff, now: int, v: Vitals)
    requires b.endTime <= now && b.runTimeLimit == 0 && !Fells(b, v.hp)
    ensures Passed([b], now) == [] && PassedOn([b], now, v) == Ended(b, v)
    ensures !PassFells([b], now, v)
  {
    assert [b][1..] == [];
  }

  lemma OneFiringMore(max: int, hp: int, share: nat, n: nat)
    requires hp <= max
    ensures Atmost(max, Atmost(max, hp + share) + n * share) == Atmost(max, hp + (n + 1) * share)
  {
    assert (n + 1) * share == n * share + share;
  }

  /** As long as the heal is alone and lasts, every firing adds its share. */
  lemma {:induction false} LoneHealAdds(b: Buff, ops: seq<Op>, v: Vitals, share: int)
    requires b.kind == HP && b.p1 >= 0 && PassesBefore(ops, b.endTime)
    requires v.hp <= v.hpMax && 0 <= v.hpMax && IsShare(b, v.hpMax, share)
    ensures VitalsRun([b], ops, v) == v.(hp := Atmost(v.hpMax, v.hp + FiringsIn(b, ops) * share))
    ensures FallsAt([b], ops, v) == |ops|
    decreases |ops|
  {
    HealAmount(b, v.hp, v.hpMax, share);
    if ops != [] {
      LonePass(b, ops[0].now, v);
      var w := TickedOn(b, v);
      LoneHealAdds(Ticked(b), ops[1..], w, share);
      if Fires(b) {
        OneFiringMore(v.hpMax, v.hp, share, FiringsIn(Ticked(b), ops[1..]));
      }
    }
  }

  lemma {:induction false} AllArePasses(ops: seq<Op>, endTime: int)
    requires PassesBefore(ops, endTime)
    ensures Passes(ops) == |ops|
  {
    if ops != [] {
      AllArePasses(ops[1..], endTime);
    }
  }

  /** A heal that lives through n passes restores its share once for every runTimeLimit of them, up to
      the maximum. */
  lemma LoneHealRestores(b: Buff, ops: seq<Op>, v: Vitals, share: int)
    requires b.kind == HP && b.p1 >= 0 && PassesBefore(ops, b.endTime)
    requires b.runTimeLimit > 0 && b.runCounter == 0
    requires v.hp <= v.hpMax && 0 <= v.hpMax && IsShare(b, v.hpMax, share)
    ensures VitalsRun([b], ops, v) == v.(hp := Atmost(v.hpMax, v.hp + (|ops| / b.runTimeLimit) * share))
  {
    LoneHealAdds(b, ops, v, share);
    AllArePasses(ops, b.endTime);
    RunCounts(b, ops);
    UsedUpIsProduct(b, ops);
    DivisionIsUnique(|ops|, b.runTimeLimit, FiringsIn(b, ops), VersionRun(b, ops).runCounter);
  }

  /** The first level of the blood heal on a role with 500 of 2000 hit points: 600 after ten passes. */
  lemma BloodHealHeals(ops: seq<Op>)
    requires PassesBefore(ops, 30) && |ops| == 10
    ensures var b := Buff(HP, 202, 1, 0, 30, true, true, 5, 0, 0, 10);
      VitalsRun([b], ops, Vitals(500, 0, 2000, 0)).hp == 600
  {
    var b := Buff(HP, 202, 1, 0, 30, true, true, 5, 0, 0, 10);
    LoneHealRestores(b, ops, Vitals(500, 0, 2000, 0), 100);
  }
}
