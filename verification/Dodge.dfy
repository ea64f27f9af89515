/** The loop in CalculateMoveP that pushes a role aside when another one stands on its next cell. */
module Dodge {
  import opened Grid

  const SHOVE := 5

  /** An entry of P_Roles, in key order: who stands where. */
  datatype Standing = Standing(roleID: int, cell: Pos)

  function Shoved(p: Pos, k: int): Pos {
    Pos(p.x + k * SHOVE, p.y + k * SHOVE)
  }

  /** Some other role, at index `from` or later, stands on p. */
  ghost predicate Taken(roles: seq<Standing>, self: int, from: int, p: Pos) {
    exists i :: 0 <= from <= i < |roles| && roles[i].roleID != self && roles[i].cell == p
  }

  /** How many other roles could still be in the way of a role that only moves to larger x. */
  function Ahead(roles: seq<Standing>, self: int, x: int): nat {
    if roles == [] then 0
    else Ahead(roles[1..], self, x) + if roles[0].roleID != self && roles[0].cell.x >= x then 1 else 0
  }

  lemma {:induction false} AheadShrinks(roles: seq<Standing>, self: int, x: int, y: int)
    requires x <= y
    ensures Ahead(roles, self, y) <= Ahead(roles, self, x) <= |roles|
    ensures (exists i :: 0 <= i < |roles| && roles[i].roleID != self && x <= roles[i].cell.x < y) ==>
      Ahead(roles, self, y) < Ahead(roles, self, x)
  {
    if roles != [] {
      AheadShrinks(roles[1..], self, x, y);
      if i :| 0 <= i < |roles| && roles[i].roleID != self && x <= roles[i].cell.x < y {
        assert i > 0 ==> roles[1..][i - 1] == roles[i];
      }
    }
  }

  /** Where the restarting scan ends: the target itself if nobody is there, else the first shoved
      cell that nobody but possibly the first role of the table holds. */
  ghost predicate Settles(roles: seq<Standing>, self: int, p: Pos, k: nat) {
    && (k == 0 <==> !Taken(roles, self, 0, p))
    && (k > 0 ==> !Taken(roles, self, 1, Shoved(p, k)))
    && forall j :: 1 <= j < k ==> Taken(roles, self, 1, Shoved(p, j))
  }

  /** A match restarts the scan at the first entry, which the loop's increment then skips. There
      is at most one shove for each other role that is not behind the target. */
  method AvoidOthers(roles: seq<Standing>, self: int, target: Pos) returns (pos: Pos, shoves: nat)
    ensures pos == Shoved(target, shoves) && Settles(roles, self, target, shoves)
    ensures shoves <= Ahead(roles, self, target.x) <= |roles|
    ensures Taken(roles, self, 0, pos) <==> OverlapAhead(roles, self, target)
    ensures InBounds(target) ==> (InBounds(pos) <==> StaysOnMap(roles, self, target))
  {
    pos, shoves := target, 0;
    AheadShrinks(roles, self, target.x, target.x);
    var i := 0;
    while i < |roles|
      invariant 0 <= i <= |roles| && (shoves > 0 ==> 1 <= i)
      invariant pos == Shoved(target, shoves)
      invariant shoves + Ahead(roles, self, pos.x) <= Ahead(roles, self, target.x)
      invariant shoves > 0 ==> Taken(roles, self, 0, target)
      invariant forall j :: 1 <= j < shoves ==> Taken(roles, self, 1, Shoved(target, j))
      invariant forall j :: (if shoves > 0 then 1 else 0) <= j < i ==> roles[j].roleID == self || roles[j].cell != pos
      decreases Ahead(roles, self, pos.x), |roles| - i
    {
      if roles[i].roleID != self && roles[i].cell == pos {
        AheadShrinks(roles, self, pos.x, pos.x + SHOVE);
        assert Taken(roles, self, if shoves > 0 then 1 else 0, Shoved(target, shoves));
        pos := Pos(pos.x + SHOVE, pos.y + SHOVE);
        shoves := shoves + 1;
        i := 0;
      }
      i := i + 1;
    }
    OverlapsIff(roles, self, target, shoves);
    if InBounds(target) {
      StaysOnMapIff(roles, self, target, shoves);
    }
  }

  lemma SettlesIsUnique(roles: seq<Standing>, self: int, p: Pos, k: nat, l: nat)
    requires Settles(roles, self, p, k) && Settles(roles, self, p, l)
    ensures k == l
  {
  }

  /** Such a place exists for every table and every target. */
  lemma SettlesSomewhere(roles: seq<Standing>, self: int, p: Pos) returns (k: nat)
    ensures Settles(roles, self, p, k)
  {
    if Taken(roles, self, 0, p) {
      k := FirstFree(roles, self, p, 1);
    } else {
      k := 0;
    }
  }

  /** Every taken cell on the way belongs to one more role that is then left behind. */
  lemma {:induction false} FirstFree(roles: seq<Standing>, self: int, p: Pos, from: nat) returns (k: nat)
    requires 1 <= from && forall j :: 1 <= j < from ==> Taken(roles, self, 1, Shoved(p, j))
    ensures from <= k && !Taken(roles, self, 1, Shoved(p, k))
    ensures forall j :: 1 <= j < k ==> Taken(roles, self, 1, Shoved(p, j))
    decreases Ahead(roles, self, p.x + from * SHOVE)
  {
    k := from;
    if Taken(roles, self, 1, Shoved(p, from)) {
      AheadShrinks(roles, self, p.x + from * SHOVE, p.x + (from + 1) * SHOVE);
      k := FirstFree(roles, self, p, from + 1);
    }
  }

  /** The first role of the table waits on the shoved cell that the others leave to be taken. */
  ghost predicate OverlapAhead(roles: seq<Standing>, self: int, p: Pos) {
    && roles != [] && roles[0].roleID != self && Taken(roles, self, 0, p)
    && exists j: nat :: 1 <= j && roles[0].cell == Shoved(p, j) && !Taken(roles, self, 1, Shoved(p, j)) &&
         forall i :: 1 <= i < j ==> Taken(roles, self, 1, Shoved(p, i))
  }

  /** The loop is there to avoid overlaps. One can tell beforehand when it does not: a role is shoved
      onto the first role of the table if and only if that one stands in the way like this. */
  lemma OverlapsIff(roles: seq<Standing>, self: int, p: Pos, k: nat)
    requires Settles(roles, self, p, k)
    ensures Taken(roles, self, 0, Shoved(p, k)) <==> OverlapAhead(roles, self, p)
  {
    assert Shoved(p, 0) == p;
    if Taken(roles, self, 0, Shoved(p, k)) {
      var i :| 0 <= i < |roles| && roles[i].roleID != self && roles[i].cell == Shoved(p, k);
      assert i > 0 ==> Taken(roles, self, 1, Shoved(p, k));
    }
    if OverlapAhead(roles, self, p) {
      var j: nat :| 1 <= j && roles[0].cell == Shoved(p, j) && !Taken(roles, self, 1, Shoved(p, j)) &&
        forall i :: 1 <= i < j ==> Taken(roles, self, 1, Shoved(p, i));
      assert j == k;
    }
  }

  /** A cell of the map is left for the role: its target, or a shoved cell that nobody but possibly
      the first role holds. */
  ghost predicate StaysOnMap(roles: seq<Standing>, self: int, p: Pos) {
    || !Taken(roles, self, 0, p)
    || exists j: nat :: 1 <= j && InBounds(Shoved(p, j)) && !Taken(roles, self, 1, Shoved(p, j))
  }

  /** Otherwise, and only then, the role is pushed off the map. */
  lemma StaysOnMapIff(roles: seq<Standing>, self: int, p: Pos, k: nat)
    requires InBounds(p) && Settles(roles, self, p, k)
    ensures InBounds(Shoved(p, k)) <==> StaysOnMap(roles, self, p)
  {
    if StaysOnMap(roles, self, p) && k > 0 {
      var j: nat :| 1 <= j && InBounds(Shoved(p, j)) && !Taken(roles, self, 1, Shoved(p, j));
      assert k <= j;
    }
  }

  /** That happens near the far edges: one role on the target is enough. */
  lemma LeavesMapHappens()
    ensures var roles := [Standing(1, Pos(0, 10)), Standing(2, Pos(48, 20))];
      && Settles(roles, 3, Pos(48, 20), 1) && !InBounds(Shoved(Pos(48, 20), 1))
      && !StaysOnMap(roles, 3, Pos(48, 20)) && Shoved(Pos(48, 20), 1) == Pos(53, 25)
  {
    var roles := [Standing(1, Pos(0, 10)), Standing(2, Pos(48, 20))];
    assert roles[1].cell == Pos(48, 20);
    assert Settles(roles, 3, Pos(48, 20), 1);
    StaysOnMapIff(roles, 3, Pos(48, 20), 1);
  }

  /** The exception is real: two roles, one on the target and the first one a shove further on. */
  lemma OverlapHappens()
    ensures var roles := [Standing(1, Pos(15, 15)), Standing(2, Pos(10, 10))];
      Settles(roles, 3, Pos(10, 10), 1) && Taken(roles, 3, 0, Shoved(Pos(10, 10), 1))
  {
    var roles := [Standing(1, Pos(15, 15)), Standing(2, Pos(10, 10))];
    assert roles[1].cell == Pos(10, 10);
    assert roles[0].cell == Shoved(Pos(10, 10), 1);
  }
}
