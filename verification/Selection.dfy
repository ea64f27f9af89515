/** SelectIfhasItems: choosing the cells from which requested items are taken. */
module Selection {
  import opened BagTable

  datatype Request = Request(itemID: int, num: nat)
  datatype Picked = Picked(itemID: int, cell: int, num: int)

  /** select ... where ItemID = itemID; the query asks for no order. */
  function RowsOf(rows: seq<Row>, itemID: int): seq<Row> {
    if rows == [] then []
    else (if rows[0].stack.itemID == itemID then [rows[0]] else []) + RowsOf(rows[1..], itemID)
  }

  lemma {:induction false} RowsOfMembers(rows: seq<Row>, itemID: int)
    ensures forall r :: r in RowsOf(rows, itemID) <==> r in rows && r.stack.itemID == itemID
    ensures DistinctCells(rows) ==> DistinctCells(RowsOf(rows, itemID))
  {
    if rows != [] {
      RowsOfMembers(rows[1..], itemID);
      var rest := RowsOf(rows[1..], itemID);
      assert rows == [rows[0]] + rows[1..];
      if DistinctCells(rows) {
        forall i | 0 <= i < |rest|
          ensures rest[i].cell != rows[0].cell
        {
          assert rest[i] in rest;
        }
      }
    }
  }

  function Sum(rows: seq<Row>): int {
    if rows == [] then 0 else rows[0].stack.num + Sum(rows[1..])
  }

  /** The bag holds enough of what is requested. Rows with an entity count one each, whatever their
      number says; the first row decides which kind the item is. */
  predicate Enough(rows: seq<Row>, q: Request) {
    var found := RowsOf(rows, q.itemID);
    found != [] && (if found[0].stack.entityID != 0 then |found| else Sum(found)) >= q.num
  }

  function PickedSum(picks: seq<Picked>): int {
    if picks == [] then 0 else picks[0].num + PickedSum(picks[1..])
  }

  /** The picks for one item: the first cells of the query, all but the last one taken whole, none
      beyond what it holds, and together exactly what is needed. */
  ghost predicate Picks(found: seq<Row>, q: Request, picks: seq<Picked>) {
    && |picks| <= |found|
    && (forall i :: 0 <= i < |picks| ==>
          picks[i].itemID == q.itemID && picks[i].cell == found[i].cell && picks[i].num <= found[i].stack.num)
    && (forall i :: 0 <= i < |picks| - 1 ==> picks[i].num == found[i].stack.num)
    && (forall i :: 0 <= i < |picks| ==> picks[i].num >= 1)
    && PickedSum(picks) == q.num
  }

  /** The picks for an item kept as entities: the first rows, one unit each. */
  ghost predicate PicksEntities(found: seq<Row>, q: Request, picks: seq<Picked>) {
    && |picks| == q.num <= |found|
    && forall i :: 0 <= i < |picks| ==> picks[i] == Picked(q.itemID, found[i].cell, 1)
  }

  ghost predicate PicksFor(rows: seq<Row>, q: Request, picks: seq<Picked>) {
    var found := RowsOf(rows, q.itemID);
    found != [] && if found[0].stack.entityID != 0 then PicksEntities(found, q, picks) else Picks(found, q, picks)
  }

  /** What the picked stacks hold together, the part that is left over included. */
  function Counted(found: seq<Row>, picks: seq<Picked>): int {
    if |picks| <= |found| then Sum(found[..|picks|]) else Sum(found)
  }

  ghost predicate Positive(rows: seq<Row>) {
    forall r :: r in rows ==> r.stack.num >= 1
  }

  lemma {:induction false} SumConcat(a: seq<Row>, b: seq<Row>)
    ensures Sum(a + b) == Sum(a) + Sum(b)
  {
    if a == [] {
      assert a + b == b;
    } else {
      assert (a + b)[1..] == a[1..] + b;
      SumConcat(a[1..], b);
    }
  }

  lemma {:induction false} SumIsPositive(rows: seq<Row>)
    requires Positive(rows)
    ensures Sum(rows) >= 0
  {
    if rows != [] {
      assert forall r :: r in rows[1..] ==> r in rows;
      SumIsPositive(rows[1..]);
    }
  }

  lemma {:induction false} PickedSumSnoc(picks: seq<Picked>, p: Picked)
    ensures PickedSum(picks + [p]) == PickedSum(picks) + p.num
  {
    if picks == [] {
      assert picks + [p] == [p];
    } else {
      assert (picks + [p])[1..] == picks[1..] + [p];
      PickedSumSnoc(picks[1..], p);
    }
  }

  /** The loop over the rows of a stackable item. */
  method PickStacks(found: seq<Row>, q: Request) returns (num: int, picks: seq<Picked>)
    requires Positive(found)
    ensures num >= q.num <==> Sum(found) >= q.num
    ensures num >= q.num ==> Picks(found, q, picks)
    ensures |picks| <= |found| && num == Counted(found, picks)
  {
    num, picks := 0, [];
    var i := 0;
    while i < |found| && num < q.num
      invariant 0 <= i <= |found| && |picks| == i
      invariant num == Sum(found[..i]) >= 0
      invariant forall j :: 0 <= j < i ==>
        picks[j].itemID == q.itemID && picks[j].cell == found[j].cell && 1 <= picks[j].num <= found[j].stack.num
      invariant forall j :: 0 <= j < i - 1 ==> picks[j].num == found[j].stack.num
      invariant i > 0 && num < q.num ==> picks[i - 1].num == found[i - 1].stack.num
      invariant PickedSum(picks) == if num > q.num then q.num else num
    {
      var count := found[i].stack.num;
      assert found[i] in found;
      assert found[..i + 1] == found[..i] + [found[i]];
      SumConcat(found[..i], [found[i]]);
      var pick := Picked(q.itemID, found[i].cell, count);
      num := num + count;
      if num > q.num {
        pick := pick.(num := count - (num - q.num));
      }
      PickedSumSnoc(picks, pick);
      picks := picks + [pick];
      i := i + 1;
    }
    assert found == found[..i] + found[i..];
    SumConcat(found[..i], found[i..]);
    assert Positive(found[i..]) by {
      assert forall r :: r in found[i..] ==> r in found;
    }
    SumIsPositive(found[i..]);
    assert i == |found| ==> found[i..] == [];
  }

  /** The body of the loop, for one request. `last` is the result so far; a stackable item sets it
      to the units counted. */
  method PickOne(rows: seq<Row>, q: Request, last: int) returns (ret: int, some: seq<Picked>)
    requires Positive(rows) && last >= 0
    ensures ret == -1 || ret >= 0
    ensures ret != -1 <==> Enough(rows, q)
    ensures ret != -1 ==> PicksFor(rows, q, some) && ret == LastOr(CountOf(rows, q, some), last)
  {
    var found := RowsOf(rows, q.itemID);
    RowsOfMembers(rows, q.itemID);
    if |found| == 0 {
      return -1, [];
    }
    if found[0].stack.entityID != 0 {
      if |found| < q.num {
        return -1, [];
      }
      some := PickEntities(found, q);
      return last, some;
    }
    var num;
    num, some := PickStacks(found, q);
    ret := if q.num > num then -1 else num;
  }

  /** The item is kept as entities; its first row decides. */
  predicate ByEntities(rows: seq<Row>, itemID: int) {
    var found := RowsOf(rows, itemID);
    found != [] && found[0].stack.entityID != 0
  }

  /** What a request counts: the units of a stackable item, and nothing at all (-1) for an item with
      entities. */
  function CountOf(rows: seq<Row>, q: Request, picks: seq<Picked>): int {
    if ByEntities(rows, q.itemID) then -1 else Counted(RowsOf(rows, q.itemID), picks)
  }

  function CountsOf(rows: seq<Row>, items: seq<Request>, picks: seq<seq<Picked>>): seq<int>
    requires |picks| <= |items|
  {
    seq(|picks|, j requires 0 <= j < |picks| => CountOf(rows, items[j], picks[j]))
  }

  function LastOr(count: int, last: int): int {
    if count >= 0 then count else last
  }

  /** The last of the counts that there are, or 0. */
  function LastCount(counts: seq<int>): int {
    if counts == [] then 0
    else if counts[|counts| - 1] >= 0 then counts[|counts| - 1]
    else LastCount(counts[..|counts| - 1])
  }

  /** The bag holds enough for the first k requests. */
  ghost predicate EnoughFor(rows: seq<Row>, items: seq<Request>, k: nat)
    requires k <= |items|
  {
    forall j :: 0 <= j < k ==> Enough(rows, items[j])
  }

  ghost predicate PickedFor(rows: seq<Row>, items: seq<Request>, picks: seq<seq<Picked>>, k: nat)
    requires k <= |items| && k <= |picks|
  {
    forall j :: 0 <= j < k ==> PicksFor(rows, items[j], picks[j])
  }

  /** What the loop has reached after k requests. */
  ghost predicate Selected(rows: seq<Row>, items: seq<Request>, k: nat, ret: int, lic: seq<Picked>,
                           picks: seq<seq<Picked>>)
  {
    && k <= |items| && |picks| == k && EnoughFor(rows, items, k) && PickedFor(rows, items, picks, k)
    && lic == Flat(picks) && ret == LastCount(CountsOf(rows, items, picks))
  }

  /** All requests, in order. The result is -1 when something is missing; otherwise it is 0, or the
      units counted for the last stackable item. */
  method SelectIfhasItems(rows: seq<Row>, items: seq<Request>)
    returns (ret: int, lic: seq<Picked>, ghost picks: seq<seq<Picked>>)
    requires Positive(rows)
    ensures ret == -1 || ret >= 0
    ensures ret != -1 <==> EnoughFor(rows, items, |items|)
    ensures ret != -1 ==> Selected(rows, items, |items|, ret, lic, picks)
  {
    ret, lic, picks := 0, [], [];
    var k := 0;
    while k < |items|
      invariant 0 <= k <= |items| && ret >= 0
      invariant Selected(rows, items, k, ret, lic, picks)
    {
      var last := ret;
      var some;
      ret, some := PickOne(rows, items[k], last);
      if ret == -1 {
        NotEnough(rows, items, k);
        lic := lic + some;
        return;
      }
      SelectedGrows(rows, items, k, last, lic, picks, some);
      lic := lic + some;
      picks := picks + [some];
      k := k + 1;
    }
  }

  lemma NotEnough(rows: seq<Row>, items: seq<Request>, k: nat)
    requires k < |items| && !Enough(rows, items[k])
    ensures !EnoughFor(rows, items, |items|)
  {
  }

  lemma SelectedGrows(rows: seq<Row>, items: seq<Request>, k: nat, last: int, lic: seq<Picked>,
                      picks: seq<seq<Picked>>, some: seq<Picked>)
    requires Selected(rows, items, k, last, lic, picks) && k < |items|
    requires Enough(rows, items[k]) && PicksFor(rows, items[k], some)
    ensures Selected(rows, items, k + 1, LastOr(CountOf(rows, items[k], some), last), lic + some, picks + [some])
  {
    FlatSnoc(picks, some);
    CountsGrow(rows, items, picks, some);
    EnoughGrows(rows, items, k);
    PickedGrows(rows, items, picks, some);
  }

  lemma EnoughGrows(rows: seq<Row>, items: seq<Request>, k: nat)
    requires k < |items| && EnoughFor(rows, items, k) && Enough(rows, items[k])
    ensures EnoughFor(rows, items, k + 1)
  {
  }

  lemma PickedGrows(rows: seq<Row>, items: seq<Request>, picks: seq<seq<Picked>>, more: seq<Picked>)
    requires |picks| < |items| && PickedFor(rows, items, picks, |picks|)
    requires PicksFor(rows, items[|picks|], more)
    ensures PickedFor(rows, items, picks + [more], |picks| + 1)
  {
    forall j | 0 <= j < |picks| + 1
      ensures PicksFor(rows, items[j], (picks + [more])[j])
    {
      if j < |picks| {
        assert (picks + [more])[j] == picks[j];
      }
    }
  }

  lemma CountsGrow(rows: seq<Row>, items: seq<Request>, picks: seq<seq<Picked>>, more: seq<Picked>)
    requires |picks| < |items|
    ensures LastCount(CountsOf(rows, items, picks + [more])) ==
      LastOr(CountOf(rows, items[|picks|], more), LastCount(CountsOf(rows, items, picks)))
  {
    var counts := CountsOf(rows, items, picks + [more]);
    assert counts[|picks|] == CountOf(rows, items[|picks|], more);
    assert counts[..|picks|] == CountsOf(rows, items, picks);
  }

  lemma CountedIsPositive(found: seq<Row>, q: Request, picks: seq<Picked>)
    requires Positive(found) && Picks(found, q, picks)
    ensures Counted(found, picks) >= 0 && (q.num > 0 ==> Counted(found, picks) > 0)
  {
    var taken := found[..|picks|];
    assert Positive(taken) by {
      assert forall r :: r in taken ==> r in found;
    }
    SumIsPositive(taken);
    if q.num > 0 {
      assert picks != [];
      assert taken[0] in found;
      assert Positive(taken[1..]) by {
        assert forall r :: r in taken[1..] ==> r in taken;
      }
      SumIsPositive(taken[1..]);
    }
  }

  lemma CountIsPositive(rows: seq<Row>, q: Request, picks: seq<Picked>)
    requires Positive(rows) && q.num >= 1 && PicksFor(rows, q, picks)
    ensures CountOf(rows, q, picks) > 0 <==> !ByEntities(rows, q.itemID)
    ensures CountOf(rows, q, picks) != 0
  {
    RowsOfMembers(rows, q.itemID);
    if !ByEntities(rows, q.itemID) {
      CountedIsPositive(RowsOf(rows, q.itemID), q, picks);
    }
  }

  lemma {:induction false} LastCountIsPositiveIff(counts: seq<int>)
    requires forall j :: 0 <= j < |counts| ==> counts[j] != 0
    ensures LastCount(counts) > 0 <==> exists j :: 0 <= j < |counts| && counts[j] > 0
  {
    if counts != [] && counts[|counts| - 1] < 0 {
      var shorter := counts[..|counts| - 1];
      LastCountIsPositiveIff(shorter);
      assert forall j :: 0 <= j < |shorter| ==> shorter[j] == counts[j];
    }
  }

  /** A caller that takes a positive result for success, as a disabled one in the chat service does,
      is right if and only if at least one of the requested items is stackable: for items with entities
      alone success is reported as 0. */
  lemma SuccessIsPositiveIff(rows: seq<Row>, items: seq<Request>, ret: int, lic: seq<Picked>, picks: seq<seq<Picked>>)
    requires Positive(rows) && Selected(rows, items, |items|, ret, lic, picks)
    requires forall j :: 0 <= j < |items| ==> items[j].num >= 1
    ensures ret > 0 <==> exists j :: 0 <= j < |items| && !ByEntities(rows, items[j].itemID)
  {
    var counts := CountsOf(rows, items, picks);
    forall j | 0 <= j < |items|
      ensures counts[j] != 0 && (counts[j] > 0 <==> !ByEntities(rows, items[j].itemID))
    {
      CountIsPositive(rows, items[j], picks[j]);
    }
    LastCountIsPositiveIff(counts);
  }

  /** One sword asked for and found: the answer is 0. */
  lemma SuccessCanBeZero()
    ensures var rows := [Row(1, Stack(1, 2, 300, 12, 1))];
      Selected(rows, [Request(300, 1)], 1, 0, [Picked(300, 1, 1)], [[Picked(300, 1, 1)]])
  {
    var rows := [Row(1, Stack(1, 2, 300, 12, 1))];
    assert rows[1..] == [];
    assert RowsOf(rows, 300) == rows;
    var picks := [[Picked(300, 1, 1)]];
    FlatSnoc([], picks[0]);
    assert [] + picks == picks;
    var counts := CountsOf(rows, [Request(300, 1)], picks);
    assert counts == [-1] && counts[..0] == [];
  }

  method PickEntities(found: seq<Row>, q: Request) returns (picks: seq<Picked>)
    requires q.num <= |found|
    ensures PicksEntities(found, q, picks)
  {
    picks := [];
    var j := 0;
    while j < q.num
      invariant 0 <= j <= q.num && |picks| == j
      invariant forall i :: 0 <= i < j ==> picks[i] == Picked(q.itemID, found[i].cell, 1)
    {
      picks := picks + [Picked(q.itemID, found[j].cell, 1)];
      j := j + 1;
    }
  }

  function Flat(picks: seq<seq<Picked>>): seq<Picked> {
    if picks == [] then [] else Flat(picks[..|picks| - 1]) + picks[|picks| - 1]
  }

  lemma FlatSnoc(picks: seq<seq<Picked>>, more: seq<Picked>)
    ensures Flat(picks + [more]) == Flat(picks) + more
  {
    assert (picks + [more])[..|picks|] == picks;
  }

  /** With distinct items asked for, no cell is picked twice: cells differ within an item because
      the rows do, and between items because a cell holds only one. */
  lemma PickedCellsDiffer(rows: seq<Row>, q: Request, r: Request, a: seq<Picked>, b: seq<Picked>, i: int, j: int)
    requires DistinctCells(rows)
    requires PicksFor(rows, q, a) && PicksFor(rows, r, b)
    requires 0 <= i < |a| && 0 <= j < |b|
    requires q.itemID != r.itemID || (q == r && a == b && i != j)
    ensures a[i].cell != b[j].cell
  {
    RowsOfMembers(rows, q.itemID);
    RowsOfMembers(rows, r.itemID);
    var f, g := RowsOf(rows, q.itemID), RowsOf(rows, r.itemID);
    assert f[i] in f && g[j] in g;
    var k :| 0 <= k < |rows| && rows[k] == f[i];
    var l :| 0 <= l < |rows| && rows[l] == g[j];
  }
}
