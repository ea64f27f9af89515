/** The energy drain: a role under it loses mana as it moves. */
module ManaDrain {
  import opened BuffTable

  const NengLiangLiuShi := 226
  /** Every so many calls the drain takes effect. */
  const DRAIN_EVERY := 10

  /** The call on which the buff's counter is full. */
  predicate Drains(b: Buff) {
    b.parentSkill == NengLiangLiuShi && b.runCounter + 1 >= DRAIN_EVERY
  }

  function Paced(b: Buff): Buff {
    if b.parentSkill != NengLiangLiuShi then b
    else b.(runCounter := if Drains(b) then 0 else b.runCounter + 1)
  }

  function PacedAll(buffs: seq<Buff>): seq<Buff> {
    if buffs == [] then [] else [Paced(buffs[0])] + PacedAll(buffs[1..])
  }

  /** The stated share of the mana, and one unit where that is nothing. */
  function DrainHurt(b: Buff, mp: int): int {
    var mpHurt := Quotient(mp * b.p2, 100);
    if mpHurt == 0 && mp > 0 then 1 else mpHurt
  }

  function ManaAfter(buffs: seq<Buff>, mp: int): int {
    if buffs == [] then mp
    else ManaAfter(buffs[1..], if Drains(buffs[0]) then mp - DrainHurt(buffs[0], mp) else mp)
  }

  ghost predicate ShareDrains(buffs: seq<Buff>) {
    forall i :: 0 <= i < |buffs| && Drains(buffs[i]) ==> 0 <= buffs[i].p2 <= 100
  }

  /** So many percent, rounded down, but at least one unit of what there is. */
  lemma HurtIsAShare(b: Buff, mp: nat)
    requires 0 <= b.p2 <= 100
    ensures 0 <= DrainHurt(b, mp) <= mp && (DrainHurt(b, mp) > 0 <==> mp > 0)
    ensures mp * b.p2 >= 100 ==> 100 * DrainHurt(b, mp) <= mp * b.p2 < 100 * DrainHurt(b, mp) + 100
    ensures mp * b.p2 < 100 && mp > 0 ==> DrainHurt(b, mp) == 1
  {
    assert 0 <= mp * b.p2 <= mp * 100;
  }

  /** Mana never drops below zero, and a call takes some of what there is if and only if a drain is
      due. */
  lemma {:induction false} DrainTakesSomeIff(buffs: seq<Buff>, mp: nat)
    requires ShareDrains(buffs)
    ensures 0 <= ManaAfter(buffs, mp) <= mp
    ensures ManaAfter(buffs, mp) < mp <==> mp > 0 && exists i :: 0 <= i < |buffs| && Drains(buffs[i])
  {
    if buffs != [] {
      assert ShareDrains(buffs[1..]);
      if Drains(buffs[0]) {
        HurtIsAShare(buffs[0], mp);
        DrainTakesSomeIff(buffs[1..], mp - DrainHurt(buffs[0], mp));
      } else {
        DrainTakesSomeIff(buffs[1..], mp);
        if i :| 0 <= i < |buffs| && Drains(buffs[i]) {
          assert Drains(buffs[1..][i - 1]);
        }
      }
    }
  }

  function PacedTimes(b: Buff, n: nat): Buff {
    if n == 0 then b else Paced(PacedTimes(b, n - 1))
  }

  function DrainCount(b: Buff, n: nat): nat {
    if n == 0 then 0 else DrainCount(b, n - 1) + if Drains(PacedTimes(b, n - 1)) then 1 else 0
  }

  /** A drain takes effect on every tenth call that moves its role. */
  lemma {:induction false} DrainsEveryTen(b: Buff, n: nat)
    requires b.parentSkill == NengLiangLiuShi && b.runCounter == 0
    ensures DrainCount(b, n) == n / DRAIN_EVERY
    ensures PacedTimes(b, n) == b.(runCounter := n % DRAIN_EVERY)
  {
    if n > 0 {
      DrainsEveryTen(b, n - 1);
    }
  }

  lemma {:induction false} PaceKeepsTotals(buffs: seq<Buff>, a: Attr)
    ensures Total(PacedAll(buffs), a) == Total(buffs, a)
  {
    if buffs != [] {
      PaceKeepsTotals(buffs[1..], a);
      assert PacedAll(buffs)[1..] == PacedAll(buffs[1..]);
    }
  }

  /** Going on from index i. */
  lemma PaceStep(buffs: seq<Buff>, i: int, mp: int)
    requires 0 <= i < |buffs|
    ensures var paced := buffs[i := Paced(buffs[i])];
      && paced[i + 1..] == buffs[i + 1..]
      && paced[..i + 1] + PacedAll(paced[i + 1..]) == buffs[..i] + PacedAll(buffs[i..])
    ensures ManaAfter(buffs[i..], mp) ==
      ManaAfter(buffs[i + 1..], if Drains(buffs[i]) then mp - DrainHurt(buffs[i], mp) else mp)
  {
    assert buffs[i..][1..] == buffs[i + 1..];
  }
}
