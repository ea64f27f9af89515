/** ProcessSortItem: merging stacks, then renumbering cells. */
module BagSort {
  import opened BagTable

  // -------- what merging promises

  /** A stack that can still take units: stackable, without an entity, and not full. */
  predicate Open(stackable: set<int>, r: Row) {
    r.stack.entityID == 0 && r.stack.itemID in stackable && r.stack.num != TOPSTACK_NUM
  }

  /** At most one open stack of each item. */
  ghost predicate Compact(stackable: set<int>, rows: seq<Row>) {
    forall i, j :: 0 <= i < j < |rows| && Open(stackable, rows[i]) && Open(stackable, rows[j]) ==>
      rows[i].stack.itemID != rows[j].stack.itemID
  }

  /** Rows keep their cell and everything but their number; rows that were not open stay as they are. */
  ghost predicate OnlyNumsOfOpen(stackable: set<int>, before: seq<Row>, after: seq<Row>) {
    && (forall r :: r in after ==> exists b :: b in before && b.cell == r.cell && r == WithNum(b, r.stack.num))
    && (forall b :: b in before && !Open(stackable, b) ==> b in after)
  }

  ghost predicate SameUnits(before: seq<Row>, after: seq<Row>) {
    forall itemID, loose :: Units(after, itemID, loose) == Units(before, itemID, loose)
  }

  function CountLoose(rows: seq<Row>, itemID: int): nat {
    if rows == [] then 0 else (if Holds(itemID, true, rows[0].stack) then 1 else 0) + CountLoose(rows[1..], itemID)
  }

  function CeilDiv(a: int, b: int): int
    requires b > 0
  {
    (a + b - 1) / b
  }

  lemma {:induction false} FullStacks(rows: seq<Row>, itemID: int)
    requires forall i :: 0 <= i < |rows| && Holds(itemID, true, rows[i].stack) ==> rows[i].stack.num == TOPSTACK_NUM
    ensures Units(rows, itemID, true) == TOPSTACK_NUM * CountLoose(rows, itemID)
  {
    if rows != [] {
      FullStacks(rows[1..], itemID);
    }
  }

  /** With at most one open stack, an item takes exactly as many stacks as its units need: their
      number divided by the stack size, rounded up. */
  lemma {:induction false} CompactIsMinimal(stackable: set<int>, rows: seq<Row>, top: int, itemID: int)
    requires Safe(rows, top) && Compact(stackable, rows) && itemID in stackable
    ensures CountLoose(rows, itemID) == CeilDiv(Units(rows, itemID, true), TOPSTACK_NUM)
  {
    if rows != [] {
      assert Safe(rows[1..], top) && Compact(stackable, rows[1..]);
      if Holds(itemID, true, rows[0].stack) && Open(stackable, rows[0]) {
        assert forall i :: 0 < i < |rows| && Open(stackable, rows[i]) ==> rows[i].stack.itemID != itemID;
        assert forall i :: 0 <= i < |rows[1..]| ==> rows[1..][i] == rows[i + 1];
        FullStacks(rows[1..], itemID);
      } else {
        CompactIsMinimal(stackable, rows[1..], top, itemID);
      }
    }
  }

  /** No other way to hold those units, with full stacks at most, takes fewer. */
  lemma {:induction false} NoFewerStacks(rows: seq<Row>, top: int, itemID: int)
    requires Safe(rows, top)
    ensures CountLoose(rows, itemID) >= CeilDiv(Units(rows, itemID, true), TOPSTACK_NUM)
    ensures Units(rows, itemID, true) <= TOPSTACK_NUM * CountLoose(rows, itemID)
  {
    if rows != [] {
      assert Safe(rows[1..], top);
      NoFewerStacks(rows[1..], top, itemID);
    }
  }

  // -------- merging

  function OpenRows(stackable: set<int>, rows: seq<Row>): seq<Row> {
    if rows == [] then []
    else (if Open(stackable, rows[0]) then [rows[0]] else []) + OpenRows(stackable, rows[1..])
  }

  lemma {:induction false} OpenRowsMembers(stackable: set<int>, rows: seq<Row>)
    requires DistinctCells(rows)
    ensures forall r :: r in OpenRows(stackable, rows) <==> r in rows && Open(stackable, r)
    ensures DistinctCells(OpenRows(stackable, rows))
  {
    if rows != [] {
      OpenRowsMembers(stackable, rows[1..]);
      var rest := OpenRows(stackable, rows[1..]);
      assert rows == [rows[0]] + rows[1..];
      forall i | 0 <= i < |rest|
        ensures rest[i].cell != rows[0].cell
      {
        assert rest[i] in rest;
      }
    }
  }

  /** The query of the merging loop: the open stacks by item, descending. */
  ghost predicate OpenCursor(stackable: set<int>, rows: seq<Row>, cursor: seq<Row>) {
    && DistinctCells(cursor)
    && (forall r :: r in cursor <==> r in rows && Open(stackable, r))
    && forall i, j :: 0 <= i < j < |cursor| ==> cursor[i].stack.itemID >= cursor[j].stack.itemID
  }

  /** Of one item, the fuller stacks come first: the second key is descending too. */
  ghost predicate LeastLast(cursor: seq<Row>) {
    forall i, j :: 0 <= i < j < |cursor| && cursor[i].stack.itemID == cursor[j].stack.itemID ==>
      cursor[i].stack.num >= cursor[j].stack.num
  }

  method QueryOpen(stackable: set<int>, rows: seq<Row>) returns (cursor: seq<Row>)
    requires DistinctCells(rows)
    ensures OpenCursor(stackable, rows, cursor) && LeastLast(cursor)
  {
    OpenRowsMembers(stackable, rows);
    cursor := QueryOrdered(OpenRows(stackable, rows), (r: Row) => -r.stack.itemID, (r: Row) => -r.stack.num);
    SameRowsDistinct(OpenRows(stackable, rows), cursor);
    forall i, j | 0 <= i < j < |cursor|
      ensures cursor[i].stack.itemID >= cursor[j].stack.itemID
      ensures cursor[i].stack.itemID == cursor[j].stack.itemID ==> cursor[i].stack.num >= cursor[j].stack.num
    {
      assert InOrder((r: Row) => -r.stack.itemID, (r: Row) => -r.stack.num, cursor[i], cursor[j]);
    }
  }

  /** What the merging loop keeps from the table it started with; rows from index k of the cursor
      on have not been touched. */
  ghost predicate Merging(stackable: set<int>, top: int, rows0: seq<Row>, cursor: seq<Row>, k: int, rows: seq<Row>) {
    && Safe(rows, top) && OnlyNumsOfOpen(stackable, rows0, rows)
    && 0 <= k <= |cursor| && forall j :: k <= j < |cursor| ==> cursor[j] in rows
  }

  /** An open row that the cursor has passed. */
  ghost predicate Leftover(stackable: set<int>, rows: seq<Row>, rest: seq<Row>, r: Row) {
    r in rows && Open(stackable, r) && r !in rest
  }

  ghost predicate OneLeftoverEach(stackable: set<int>, rows: seq<Row>, rest: seq<Row>) {
    forall r, s :: Leftover(stackable, rows, rest, r) && Leftover(stackable, rows, rest, s) ==>
      r == s || r.stack.itemID != s.stack.itemID
  }

  /** Between two items: what is open is still to come, or is the one leftover of an earlier item. */
  ghost predicate Between(stackable: set<int>, top: int, rows0: seq<Row>, cursor: seq<Row>, k: int, rows: seq<Row>) {
    && Merging(stackable, top, rows0, cursor, k, rows)
    && SameUnits(rows0, rows)
    && OneLeftoverEach(stackable, rows, cursor[k..])
    && forall r, j :: Leftover(stackable, rows, cursor[k..], r) && k <= j < |cursor| ==>
         cursor[j].stack.itemID < r.stack.itemID
  }

  /** The units the table will hold once num stands in the row of c. */
  ghost predicate CarriedUnits(rows0: seq<Row>, c: Row, num: int, rows: seq<Row>) {
    forall itemID, loose :: Units(rows0, itemID, loose) ==
      Units(rows, itemID, loose) + (if Holds(itemID, loose, c.stack) then num - c.stack.num else 0)
  }

  /** Within an item: num units are carried to the row of cursor[p], which still holds its old
      number. */
  ghost predicate Carrying(stackable: set<int>, top: int, rows0: seq<Row>, cursor: seq<Row>, p: int, num: int,
                           rows: seq<Row>) {
    && Merging(stackable, top, rows0, cursor, p, rows)
    && p < |cursor| && 1 <= num <= TOPSTACK_NUM
    && CarriedUnits(rows0, cursor[p], num, rows)
    && OneLeftoverEach(stackable, rows, cursor[p..])
    && forall r :: Leftover(stackable, rows, cursor[p..], r) ==> r.stack.itemID > cursor[p].stack.itemID
  }

  lemma GroupBegins(stackable: set<int>, top: int, rows0: seq<Row>, cursor: seq<Row>, k: int, rows: seq<Row>)
    requires OpenCursor(stackable, rows0, cursor) && k < |cursor|
    requires Between(stackable, top, rows0, cursor, k, rows)
    ensures Carrying(stackable, top, rows0, cursor, k, cursor[k].stack.num, rows)
  {
    assert cursor[k] in rows;
  }

  lemma RestOfCursor(cursor: seq<Row>, p: int)
    requires 0 <= p < |cursor|
    ensures forall r :: r in cursor[p..] <==> r == cursor[p] || r in cursor[p + 1..]
    ensures DistinctCells(cursor) ==> cursor[p] !in cursor[p + 1..]
  {
    assert cursor[p..] == [cursor[p]] + cursor[p + 1..];
  }

  /** How rows changes when the stack of c gets the number x, or goes (x == 0). */
  ghost predicate Changed(c: Row, x: int, rows: seq<Row>, rows': seq<Row>) {
    && (forall r :: r in rows' <==> (x > 0 && r == WithNum(c, x)) || (r in rows && r != c))
    && forall itemID, loose :: Units(rows', itemID, loose) ==
         Units(rows, itemID, loose) + if Holds(itemID, loose, c.stack) then x - c.stack.num else 0
  }

  lemma PutNum(rows: seq<Row>, c: Row, x: int)
    requires DistinctCells(rows) && c in rows && x > 0
    ensures Changed(c, x, rows, SetNum(rows, c.cell, x)) && |SetNum(rows, c.cell, x)| == |rows|
    ensures DistinctCells(SetNum(rows, c.cell, x))
  {
    var q :| 0 <= q < |rows| && rows[q] == c;
    var rows' := SetNum(rows, c.cell, x);
    SetNumOneRow(rows, q, x);
    assert rows' == rows[q := WithNum(c, x)];
    forall r
      ensures r in rows' <==> r == WithNum(c, x) || (r in rows && r != c)
    {
      ReplacedMember(rows, q, WithNum(c, x), r);
    }
    forall itemID, loose
      ensures Units(rows', itemID, loose) ==
        Units(rows, itemID, loose) + if Holds(itemID, loose, c.stack) then x - c.stack.num else 0
    {
      UnitsReplaced(rows, q, WithNum(c, x), itemID, loose);
    }
  }

  lemma DropStack(rows: seq<Row>, c: Row)
    requires DistinctCells(rows) && c in rows
    ensures Changed(c, 0, rows, DeleteCell(rows, c.cell))
    ensures DistinctCells(DeleteCell(rows, c.cell))
  {
    var q :| 0 <= q < |rows| && rows[q] == c;
    var rows' := DeleteCell(rows, c.cell);
    DeleteOneRow(rows, q);
    assert rows' == rows[..q] + rows[q + 1..];
    forall r
      ensures r in rows' <==> r in rows && r != c
    {
      RemovedMember(rows, q, r);
    }
    forall itemID, loose
      ensures Units(rows', itemID, loose) ==
        Units(rows, itemID, loose) + if Holds(itemID, loose, c.stack) then 0 - c.stack.num else 0
    {
      UnitsRemoved(rows, q, itemID, loose);
    }
  }

  /** Such a change at cursor[p] keeps everything else. */
  lemma ChangeKeepsMerging(stackable: set<int>, top: int, rows0: seq<Row>, cursor: seq<Row>, p: int,
                           rows: seq<Row>, x: int, rows': seq<Row>)
    requires OpenCursor(stackable, rows0, cursor) && p < |cursor| && 0 <= x <= TOPSTACK_NUM
    requires Merging(stackable, top, rows0, cursor, p, rows)
    requires DistinctCells(rows') && Changed(cursor[p], x, rows, rows')
    ensures Merging(stackable, top, rows0, cursor, p + 1, rows')
  {
    assert cursor[p] in rows0 && cursor[p] in rows;
    forall i | 0 <= i < |rows'|
      ensures 1 <= rows'[i].cell <= top && 1 <= rows'[i].stack.num <= TOPSTACK_NUM
    {
      assert rows'[i] in rows';
    }
    forall j | p + 1 <= j < |cursor|
      ensures cursor[j] in rows'
    {
      assert cursor[j] in rows && cursor[j].cell != cursor[p].cell;
    }
  }

  /** The merging loop. */
  method MergeStacks(stackable: set<int>, ghost top: int, rows0: seq<Row>) returns (rows: seq<Row>)
    requires Safe(rows0, top)
    ensures Safe(rows, top) && OnlyNumsOfOpen(stackable, rows0, rows)
    ensures SameUnits(rows0, rows) && Compact(stackable, rows)
    ensures LeastKeepsRest(stackable, rows0, rows)
  {
    rows := rows0;
    var cursor := QueryOpen(stackable, rows0);
    var k := 0;
    while k < |cursor|
      invariant Paused(stackable, top, rows0, cursor, k, rows)
    {
      var celIndex, itemID, num := cursor[k].cell, cursor[k].stack.itemID, cursor[k].stack.num;
      BeginItem(stackable, top, rows0, cursor, k, rows);
      ghost var p := k;
      k := k + 1;
      while k < |cursor| && itemID == cursor[k].stack.itemID
        invariant p == k - 1 && k <= |cursor| && celIndex == cursor[p].cell && itemID == cursor[p].stack.itemID
        invariant UnderWay(stackable, top, rows0, cursor, p, num, rows)
      {
        CarryItem(stackable, top, rows0, cursor, p, num, rows);
        num := num + cursor[k].stack.num;
        if num > TOPSTACK_NUM {
          rows := SetNum(rows, celIndex, TOPSTACK_NUM);
          num := num - TOPSTACK_NUM;
        } else {
          rows := DeleteCell(rows, celIndex);
        }
        celIndex := cursor[k].cell;
        p := k;
        k := k + 1;
      }
      EndItem(stackable, top, rows0, cursor, p, num, rows);
      rows := SetNum(rows, celIndex, num);
    }
    AllMerged(stackable, top, rows0, cursor, rows);
  }

  /** Between two items, and within one, with all earlier rows settled. */
  ghost predicate Paused(stackable: set<int>, top: int, rows0: seq<Row>, cursor: seq<Row>, k: int, rows: seq<Row>) {
    && OpenCursor(stackable, rows0, cursor) && LeastLast(cursor)
    && Between(stackable, top, rows0, cursor, k, rows) && Settled(cursor, k, rows)
  }

  ghost predicate UnderWay(stackable: set<int>, top: int, rows0: seq<Row>, cursor: seq<Row>, p: int, num: int,
                           rows: seq<Row>) {
    && OpenCursor(stackable, rows0, cursor) && LeastLast(cursor)
    && Carrying(stackable, top, rows0, cursor, p, num, rows) && Settled(cursor, p, rows)
  }

  lemma BeginItem(stackable: set<int>, top: int, rows0: seq<Row>, cursor: seq<Row>, k: int, rows: seq<Row>)
    requires k < |cursor| && Paused(stackable, top, rows0, cursor, k, rows)
    ensures 0 <= k && UnderWay(stackable, top, rows0, cursor, k, cursor[k].stack.num, rows)
  {
    GroupBegins(stackable, top, rows0, cursor, k, rows);
  }

  lemma CarryItem(stackable: set<int>, top: int, rows0: seq<Row>, cursor: seq<Row>, p: int, num: int, rows: seq<Row>)
    requires 0 <= p && p + 1 < |cursor| && cursor[p].stack.itemID == cursor[p + 1].stack.itemID
    requires UnderWay(stackable, top, rows0, cursor, p, num, rows)
    ensures var sum := num + cursor[p + 1].stack.num;
      if sum > TOPSTACK_NUM then
        UnderWay(stackable, top, rows0, cursor, p + 1, sum - TOPSTACK_NUM, SetNum(rows, cursor[p].cell, TOPSTACK_NUM))
      else
        UnderWay(stackable, top, rows0, cursor, p + 1, sum, DeleteCell(rows, cursor[p].cell))
  {
    CarryOn(stackable, top, rows0, cursor, p, num, rows);
    CarrySettles(stackable, top, rows0, cursor, p, num, rows);
  }

  lemma EndItem(stackable: set<int>, top: int, rows0: seq<Row>, cursor: seq<Row>, p: int, num: int, rows: seq<Row>)
    requires UnderWay(stackable, top, rows0, cursor, p, num, rows)
    requires p + 1 < |cursor| ==> cursor[p + 1].stack.itemID != cursor[p].stack.itemID
    ensures Paused(stackable, top, rows0, cursor, p + 1, SetNum(rows, cursor[p].cell, num))
  {
    GroupEnds(stackable, top, rows0, cursor, p, num, rows);
    EndSettles(stackable, top, rows0, cursor, p, num, rows);
  }

  lemma AllMerged(stackable: set<int>, top: int, rows0: seq<Row>, cursor: seq<Row>, rows: seq<Row>)
    requires Paused(stackable, top, rows0, cursor, |cursor|, rows)
    ensures Safe(rows, top) && OnlyNumsOfOpen(stackable, rows0, rows)
    ensures SameUnits(rows0, rows) && Compact(stackable, rows)
    ensures LeastKeepsRest(stackable, rows0, rows)
  {
    AllSettled(stackable, rows0, cursor, rows);
    forall i, j | 0 <= i < j < |rows| && Open(stackable, rows[i]) && Open(stackable, rows[j])
      ensures rows[i].stack.itemID != rows[j].stack.itemID
    {
      assert Leftover(stackable, rows, cursor[|cursor|..], rows[i]);
      assert Leftover(stackable, rows, cursor[|cursor|..], rows[j]);
    }
  }

  // -------- which stack keeps the rest

  /** b is an open row with the least number among those of its item. */
  ghost predicate LeastOpen(stackable: set<int>, rows: seq<Row>, b: Row) {
    && b in rows && Open(stackable, b)
    && forall o :: o in rows && Open(stackable, o) && o.stack.itemID == b.stack.itemID ==> b.stack.num <= o.stack.num
  }

  /** The cell is still held by the same item. */
  ghost predicate StillHeld(rows: seq<Row>, b: Row) {
    exists r :: r in rows && r.cell == b.cell && r.stack.itemID == b.stack.itemID
  }

  ghost predicate FullOrGone(rows: seq<Row>, cell: int) {
    forall r :: r in rows && r.cell == cell ==> r.stack.num == TOPSTACK_NUM
  }

  /** b's cell keeps the rest of its item; all other open stacks of the item are full now, or gone. */
  ghost predicate KeepsRest(stackable: set<int>, before: seq<Row>, after: seq<Row>, b: Row) {
    && StillHeld(after, b)
    && forall o :: o in before && Open(stackable, o) && o.stack.itemID == b.stack.itemID && o != b ==>
         FullOrGone(after, o.cell)
  }

  /** For every item with open stacks, one with the least number keeps the rest. */
  ghost predicate LeastKeepsRest(stackable: set<int>, before: seq<Row>, after: seq<Row>) {
    forall a :: a in before && Open(stackable, a) ==>
      exists b: Row :: b.stack.itemID == a.stack.itemID && LeastOpen(stackable, before, b) &&
        KeepsRest(stackable, before, after, b)
  }

  /** The last row of its item in the cursor. */
  predicate GroupEnd(cursor: seq<Row>, j: int)
    requires 0 <= j < |cursor|
  {
    j + 1 == |cursor| || cursor[j + 1].stack.itemID != cursor[j].stack.itemID
  }

  ghost predicate Settled(cursor: seq<Row>, k: int, rows: seq<Row>) {
    0 <= k <= |cursor| && forall j :: 0 <= j < k ==>
      if GroupEnd(cursor, j) then StillHeld(rows, cursor[j]) else FullOrGone(rows, cursor[j].cell)
  }

  /** A change of the row of c leaves what has been settled elsewhere. */
  lemma ChangeKeepsSettled(cursor: seq<Row>, p: int, rows: seq<Row>, x: int, rows': seq<Row>)
    requires DistinctCells(cursor) && 0 <= p < |cursor| && Settled(cursor, p, rows)
    requires Changed(cursor[p], x, rows, rows')
    ensures Settled(cursor, p, rows')
  {
    forall j | 0 <= j < p
      ensures if GroupEnd(cursor, j) then StillHeld(rows', cursor[j]) else FullOrGone(rows', cursor[j].cell)
    {
      assert cursor[j].cell != cursor[p].cell;
      if GroupEnd(cursor, j) {
        assert StillHeld(rows, cursor[j]);
        var r :| r in rows && r.cell == cursor[j].cell && r.stack.itemID == cursor[j].stack.itemID;
        assert r in rows';
      } else {
        assert FullOrGone(rows, cursor[j].cell);
      }
    }
  }

  lemma OneRowPerCell(rows: seq<Row>, r: Row, c: Row)
    requires DistinctCells(rows) && r in rows && c in rows && r.cell == c.cell
    ensures r == c
  {
    var i :| 0 <= i < |rows| && rows[i] == r;
    var j :| 0 <= j < |rows| && rows[j] == c;
    assert i == j;
  }

  lemma ChangedIsFull(c: Row, x: int, rows: seq<Row>, rows': seq<Row>)
    requires DistinctCells(rows) && c in rows && (x == 0 || x == TOPSTACK_NUM) && Changed(c, x, rows, rows')
    ensures FullOrGone(rows', c.cell)
  {
    forall r | r in rows' && r.cell == c.cell
      ensures r.stack.num == TOPSTACK_NUM
    {
      if r != WithNum(c, x) {
        OneRowPerCell(rows, r, c);
        assert false;
      }
    }
  }

  lemma SettledGrows(cursor: seq<Row>, p: int, rows: seq<Row>)
    requires 0 <= p < |cursor| && Settled(cursor, p, rows)
    requires if GroupEnd(cursor, p) then StillHeld(rows, cursor[p]) else FullOrGone(rows, cursor[p].cell)
    ensures Settled(cursor, p + 1, rows)
  {
  }

  lemma CarrySettles(stackable: set<int>, top: int, rows0: seq<Row>, cursor: seq<Row>, p: int, num: int, rows: seq<Row>)
    requires OpenCursor(stackable, rows0, cursor) && 0 <= p && p + 1 < |cursor|
    requires cursor[p].stack.itemID == cursor[p + 1].stack.itemID
    requires Carrying(stackable, top, rows0, cursor, p, num, rows) && Settled(cursor, p, rows)
    ensures Settled(cursor, p + 1, if num + cursor[p + 1].stack.num > TOPSTACK_NUM
      then SetNum(rows, cursor[p].cell, TOPSTACK_NUM) else DeleteCell(rows, cursor[p].cell))
  {
    assert cursor[p] in rows;
    var full := num + cursor[p + 1].stack.num > TOPSTACK_NUM;
    var x := if full then TOPSTACK_NUM else 0;
    var rows' := if full then SetNum(rows, cursor[p].cell, TOPSTACK_NUM) else DeleteCell(rows, cursor[p].cell);
    if full {
      PutNum(rows, cursor[p], TOPSTACK_NUM);
    } else {
      DropStack(rows, cursor[p]);
    }
    ChangeKeepsSettled(cursor, p, rows, x, rows');
    ChangedIsFull(cursor[p], x, rows, rows');
    SettledGrows(cursor, p, rows');
  }

  lemma EndSettles(stackable: set<int>, top: int, rows0: seq<Row>, cursor: seq<Row>, p: int, num: int, rows: seq<Row>)
    requires OpenCursor(stackable, rows0, cursor)
    requires Carrying(stackable, top, rows0, cursor, p, num, rows) && Settled(cursor, p, rows)
    requires p + 1 < |cursor| ==> cursor[p + 1].stack.itemID != cursor[p].stack.itemID
    ensures Settled(cursor, p + 1, SetNum(rows, cursor[p].cell, num))
  {
    assert cursor[p] in rows;
    var rows' := SetNum(rows, cursor[p].cell, num);
    PutNum(rows, cursor[p], num);
    ChangeKeepsSettled(cursor, p, rows, num, rows');
    assert WithNum(cursor[p], num) in rows';
    assert StillHeld(rows', cursor[p]);
    SettledGrows(cursor, p, rows');
  }

  /** The last row of the item of row j in the cursor. */
  lemma {:induction false} EndOfGroup(cursor: seq<Row>, j: int) returns (e: int)
    requires 0 <= j < |cursor|
    ensures j <= e < |cursor| && GroupEnd(cursor, e) && cursor[e].stack.itemID == cursor[j].stack.itemID
    decreases |cursor| - j
  {
    if GroupEnd(cursor, j) {
      e := j;
    } else {
      e := EndOfGroup(cursor, j + 1);
    }
  }

  lemma ItemsDescend(stackable: set<int>, rows: seq<Row>, cursor: seq<Row>, i: int, j: int)
    requires OpenCursor(stackable, rows, cursor) && 0 <= i <= j < |cursor|
    ensures cursor[i].stack.itemID >= cursor[j].stack.itemID
  {
  }

  /** Other rows of the item come before its last one, and none of them is a last one. */
  lemma BeforeTheEnd(stackable: set<int>, rows: seq<Row>, cursor: seq<Row>, e: int, i: int)
    requires OpenCursor(stackable, rows, cursor) && LeastLast(cursor) && 0 <= e < |cursor| && GroupEnd(cursor, e)
    requires 0 <= i < |cursor| && cursor[i].stack.itemID == cursor[e].stack.itemID && i != e
    ensures i < e && !GroupEnd(cursor, i) && cursor[i].stack.num >= cursor[e].stack.num
  {
    if i > e {
      ItemsDescend(stackable, rows, cursor, e, e + 1);
      ItemsDescend(stackable, rows, cursor, e + 1, i);
      assert false;
    }
    ItemsDescend(stackable, rows, cursor, i, i + 1);
    ItemsDescend(stackable, rows, cursor, i + 1, e);
  }

  lemma AllSettled(stackable: set<int>, rows0: seq<Row>, cursor: seq<Row>, rows: seq<Row>)
    requires OpenCursor(stackable, rows0, cursor) && LeastLast(cursor) && Settled(cursor, |cursor|, rows)
    ensures LeastKeepsRest(stackable, rows0, rows)
  {
    forall a | a in rows0 && Open(stackable, a)
      ensures exists b: Row :: b.stack.itemID == a.stack.itemID && LeastOpen(stackable, rows0, b) &&
                KeepsRest(stackable, rows0, rows, b)
    {
      assert a in cursor;
      var j :| 0 <= j < |cursor| && cursor[j] == a;
      var e := EndOfGroup(cursor, j);
      EndKeepsRest(stackable, rows0, cursor, rows, e);
    }
  }

  lemma EndKeepsRest(stackable: set<int>, rows0: seq<Row>, cursor: seq<Row>, rows: seq<Row>, e: int)
    requires OpenCursor(stackable, rows0, cursor) && LeastLast(cursor) && Settled(cursor, |cursor|, rows)
    requires 0 <= e < |cursor| && GroupEnd(cursor, e)
    ensures LeastOpen(stackable, rows0, cursor[e]) && KeepsRest(stackable, rows0, rows, cursor[e])
  {
    var b := cursor[e];
    assert b in cursor;
    forall o | o in rows0 && Open(stackable, o) && o.stack.itemID == b.stack.itemID
      ensures b.stack.num <= o.stack.num && (o != b ==> FullOrGone(rows, o.cell))
    {
      assert o in cursor;
      var i :| 0 <= i < |cursor| && cursor[i] == o;
      if i != e {
        BeforeTheEnd(stackable, rows0, cursor, e, i);
      }
    }
  }

  /** One round of the inner loop. */
  lemma CarryOn(stackable: set<int>, top: int, rows0: seq<Row>, cursor: seq<Row>, p: int, num: int, rows: seq<Row>)
    requires OpenCursor(stackable, rows0, cursor) && 0 <= p && p + 1 < |cursor|
    requires cursor[p].stack.itemID == cursor[p + 1].stack.itemID
    requires Carrying(stackable, top, rows0, cursor, p, num, rows)
    ensures var sum := num + cursor[p + 1].stack.num;
      if sum > TOPSTACK_NUM then
        Carrying(stackable, top, rows0, cursor, p + 1, sum - TOPSTACK_NUM, SetNum(rows, cursor[p].cell, TOPSTACK_NUM))
      else
        Carrying(stackable, top, rows0, cursor, p + 1, sum, DeleteCell(rows, cursor[p].cell))
  {
    if num + cursor[p + 1].stack.num > TOPSTACK_NUM {
      CarryFull(stackable, top, rows0, cursor, p, num, rows);
    } else {
      CarryGone(stackable, top, rows0, cursor, p, num, rows);
    }
  }

  lemma CarryFull(stackable: set<int>, top: int, rows0: seq<Row>, cursor: seq<Row>, p: int, num: int, rows: seq<Row>)
    requires OpenCursor(stackable, rows0, cursor) && 0 <= p && p + 1 < |cursor|
    requires cursor[p].stack.itemID == cursor[p + 1].stack.itemID
    requires Carrying(stackable, top, rows0, cursor, p, num, rows)
    requires num + cursor[p + 1].stack.num > TOPSTACK_NUM
    ensures Carrying(stackable, top, rows0, cursor, p + 1, num + cursor[p + 1].stack.num - TOPSTACK_NUM,
                     SetNum(rows, cursor[p].cell, TOPSTACK_NUM))
  {
    assert cursor[p] in rows && cursor[p + 1] in rows;
    PutNum(rows, cursor[p], TOPSTACK_NUM);
    Carried(stackable, top, rows0, cursor, p, num, rows, TOPSTACK_NUM, SetNum(rows, cursor[p].cell, TOPSTACK_NUM));
  }

  lemma CarryGone(stackable: set<int>, top: int, rows0: seq<Row>, cursor: seq<Row>, p: int, num: int, rows: seq<Row>)
    requires OpenCursor(stackable, rows0, cursor) && 0 <= p && p + 1 < |cursor|
    requires cursor[p].stack.itemID == cursor[p + 1].stack.itemID
    requires Carrying(stackable, top, rows0, cursor, p, num, rows)
    requires num + cursor[p + 1].stack.num <= TOPSTACK_NUM
    ensures Carrying(stackable, top, rows0, cursor, p + 1, num + cursor[p + 1].stack.num,
                     DeleteCell(rows, cursor[p].cell))
  {
    assert cursor[p] in rows && cursor[p + 1] in rows;
    DropStack(rows, cursor[p]);
    Carried(stackable, top, rows0, cursor, p, num, rows, 0, DeleteCell(rows, cursor[p].cell));
  }

  lemma Carried(stackable: set<int>, top: int, rows0: seq<Row>, cursor: seq<Row>, p: int, num: int,
                rows: seq<Row>, x: int, rows': seq<Row>)
    requires OpenCursor(stackable, rows0, cursor) && 0 <= p && p + 1 < |cursor|
    requires cursor[p].stack.itemID == cursor[p + 1].stack.itemID
    requires Carrying(stackable, top, rows0, cursor, p, num, rows)
    requires x == 0 || x == TOPSTACK_NUM
    requires 1 <= num + cursor[p + 1].stack.num - x <= TOPSTACK_NUM
    requires DistinctCells(rows') && Changed(cursor[p], x, rows, rows')
    ensures Carrying(stackable, top, rows0, cursor, p + 1, num + cursor[p + 1].stack.num - x, rows')
  {
    ChangeKeepsMerging(stackable, top, rows0, cursor, p, rows, x, rows');
    assert cursor[p] in rows0 && cursor[p + 1] in rows0;
    LeftoversCarried(stackable, cursor, p, rows, x, rows');
    UnitsCarried(rows0, cursor[p], cursor[p + 1], num, rows, x, rows');
  }

  /** A row that is full or gone is no leftover: there are none but those there were. */
  lemma LeftoversCarried(stackable: set<int>, cursor: seq<Row>, p: int, rows: seq<Row>, x: int, rows': seq<Row>)
    requires DistinctCells(cursor) && 0 <= p < |cursor| && (x == 0 || x == TOPSTACK_NUM)
    requires Changed(cursor[p], x, rows, rows') && OneLeftoverEach(stackable, rows, cursor[p..])
    ensures OneLeftoverEach(stackable, rows', cursor[p + 1..])
    ensures forall r :: Leftover(stackable, rows', cursor[p + 1..], r) ==> Leftover(stackable, rows, cursor[p..], r)
  {
    RestOfCursor(cursor, p);
    forall r | Leftover(stackable, rows', cursor[p + 1..], r)
      ensures Leftover(stackable, rows, cursor[p..], r)
    {
    }
  }

  lemma UnitsCarried(rows0: seq<Row>, c: Row, d: Row, num: int, rows: seq<Row>, x: int, rows': seq<Row>)
    requires c.stack.itemID == d.stack.itemID && c.stack.entityID == d.stack.entityID
    requires CarriedUnits(rows0, c, num, rows) && Changed(c, x, rows, rows')
    ensures CarriedUnits(rows0, d, num + d.stack.num - x, rows')
  {
  }

  /** The carried number is written back: one open stack of this item is left, if any. */
  lemma GroupEnds(stackable: set<int>, top: int, rows0: seq<Row>, cursor: seq<Row>, p: int, num: int, rows: seq<Row>)
    requires OpenCursor(stackable, rows0, cursor)
    requires Carrying(stackable, top, rows0, cursor, p, num, rows)
    requires p + 1 < |cursor| ==> cursor[p + 1].stack.itemID != cursor[p].stack.itemID
    ensures Between(stackable, top, rows0, cursor, p + 1, SetNum(rows, cursor[p].cell, num))
  {
    var rows' := SetNum(rows, cursor[p].cell, num);
    assert cursor[p] in rows && cursor[p] in rows0;
    PutNum(rows, cursor[p], num);
    ChangeKeepsMerging(stackable, top, rows0, cursor, p, rows, num, rows');
    LeftoversAtEnd(stackable, cursor, p, num, rows, rows');
    UnitsSettled(rows0, cursor[p], num, rows, rows');
  }

  lemma UnitsSettled(rows0: seq<Row>, c: Row, num: int, rows: seq<Row>, rows': seq<Row>)
    requires CarriedUnits(rows0, c, num, rows) && Changed(c, num, rows, rows')
    ensures SameUnits(rows0, rows')
  {
  }

  lemma LeftoversAtEnd(stackable: set<int>, cursor: seq<Row>, p: int, num: int, rows: seq<Row>, rows': seq<Row>)
    requires 0 <= p < |cursor|
    requires forall i, j :: 0 <= i < j < |cursor| ==> cursor[i].stack.itemID >= cursor[j].stack.itemID
    requires p + 1 < |cursor| ==> cursor[p + 1].stack.itemID != cursor[p].stack.itemID
    requires OneLeftoverEach(stackable, rows, cursor[p..])
    requires forall r :: Leftover(stackable, rows, cursor[p..], r) ==> r.stack.itemID > cursor[p].stack.itemID
    requires Changed(cursor[p], num, rows, rows')
    ensures OneLeftoverEach(stackable, rows', cursor[p + 1..])
    ensures forall r, j :: Leftover(stackable, rows', cursor[p + 1..], r) && p < j < |cursor| ==>
      cursor[j].stack.itemID < r.stack.itemID
  {
    RestOfCursor(cursor, p);
    assert forall r :: Leftover(stackable, rows', cursor[p + 1..], r) ==>
      r == WithNum(cursor[p], num) || Leftover(stackable, rows, cursor[p..], r);
    assert forall j :: p < j < |cursor| ==> cursor[j].stack.itemID < cursor[p].stack.itemID;
  }

  // -------- renumbering

  /** The old cell of each row decides, within its item type. */
  predicate Earlier(a: Row, b: Row) {
    a.stack.itemType < b.stack.itemType || (a.stack.itemType == b.stack.itemType && a.cell < b.cell)
  }

  /** Row by row: the stacks stay, the cells become exactly 1..k, by item type and old cell. */
  ghost predicate Renumbered(before: seq<Row>, after: seq<Row>) {
    && |after| == |before|
    && (forall i :: 0 <= i < |after| ==> after[i].stack == before[i].stack && 1 <= after[i].cell <= |after|)
    && (forall c :: 1 <= c <= |after| ==> Occupied(after, c))
    && forall i, j :: 0 <= i < |after| && 0 <= j < |after| ==>
         (after[i].cell < after[j].cell <==> Earlier(before[i], before[j]))
  }

  /** After the first j rows of the cursor have been given their new cells. */
  ghost predicate Moved(aside: seq<Row>, cursor: seq<Row>, j: int, rows: seq<Row>) {
    && |rows| == |aside|
    && forall i :: 0 <= i < |aside| ==>
         rows[i] == if Find(cursor, aside[i].cell) < j then aside[i].(cell := Find(cursor, aside[i].cell) + 1)
                    else aside[i]
  }

  ghost predicate FullCursor(aside: seq<Row>, cursor: seq<Row>) {
    && DistinctCells(aside) && DistinctCells(cursor) && |cursor| == |aside|
    && (forall r :: r in cursor <==> r in aside)
    && forall i, j :: 0 <= i < j < |cursor| ==> Earlier(cursor[i], cursor[j])
  }

  method QueryAll(rows: seq<Row>) returns (cursor: seq<Row>)
    requires DistinctCells(rows)
    ensures FullCursor(rows, cursor)
  {
    cursor := QueryOrdered(rows, (r: Row) => r.stack.itemType, (r: Row) => r.cell);
    SameRowsDistinct(rows, cursor);
    forall i, j | 0 <= i < j < |cursor|
      ensures Earlier(cursor[i], cursor[j])
    {
      assert InOrder((r: Row) => r.stack.itemType, (r: Row) => r.cell, cursor[i], cursor[j]);
    }
  }

  /** Every row has its place in the cursor, and no two rows the same. */
  lemma PlaceInCursor(aside: seq<Row>, cursor: seq<Row>, i: int)
    requires FullCursor(aside, cursor) && 0 <= i < |aside|
    ensures Find(cursor, aside[i].cell) < |cursor| && cursor[Find(cursor, aside[i].cell)] == aside[i]
  {
    assert aside[i] in cursor;
    var q :| 0 <= q < |cursor| && cursor[q] == aside[i];
    FindRow(cursor, q);
  }

  /** One update of the renumbering loop moves one row, into a cell that nobody holds. */
  lemma MoveOne(aside: seq<Row>, cursor: seq<Row>, j: int, rows: seq<Row>)
    requires FullCursor(aside, cursor) && 0 <= j < |cursor| <= ASIDE
    requires forall i :: 0 <= i < |aside| ==> aside[i].cell > ASIDE
    requires Moved(aside, cursor, j, rows)
    ensures Moved(aside, cursor, j + 1, Recell(rows, cursor[j].cell, j + 1))
    ensures forall i :: 0 <= i < |rows| ==> rows[i].cell != j + 1
    ensures cursor[j].cell > j + 1
  {
    FindRow(cursor, j);
    assert cursor[j] in aside;
    forall i | 0 <= i < |aside|
      ensures rows[i].cell != j + 1
      ensures rows[i].cell == cursor[j].cell <==> Find(cursor, aside[i].cell) == j
    {
      PlaceInCursor(aside, cursor, i);
    }
  }

  lemma AllMoved(rows0: seq<Row>, cursor: seq<Row>, rows: seq<Row>)
    requires FullCursor(AllAside(rows0), cursor)
    requires Moved(AllAside(rows0), cursor, |cursor|, rows)
    ensures Renumbered(rows0, rows)
  {
    var aside := AllAside(rows0);
    forall i | 0 <= i < |rows|
      ensures Find(cursor, aside[i].cell) < |cursor| && cursor[Find(cursor, aside[i].cell)] == aside[i]
      ensures rows[i].cell == Find(cursor, aside[i].cell) + 1
    {
      PlaceInCursor(aside, cursor, i);
    }
    forall c | 1 <= c <= |rows|
      ensures Occupied(rows, c)
    {
      assert cursor[c - 1] in aside;
      var i :| 0 <= i < |aside| && aside[i] == cursor[c - 1];
      FindRow(cursor, c - 1);
      assert rows[i].cell == c;
    }
    forall i, j | 0 <= i < |rows| && 0 <= j < |rows|
      ensures rows[i].cell < rows[j].cell <==> Earlier(rows0[i], rows0[j])
    {
      var p, q := Find(cursor, aside[i].cell), Find(cursor, aside[j].cell);
      assert cursor[p] == aside[i] && cursor[q] == aside[j];
      assert Earlier(rows0[i], rows0[j]) <==> Earlier(aside[i], aside[j]);
      if p > q {
        assert Earlier(cursor[q], cursor[p]);
      }
    }
  }

  /** The renumbering loop. All rows are moved aside first, so that the new cells are free. */
  method Renumber(rows0: seq<Row>) returns (rows: seq<Row>)
    requires DistinctCells(rows0) && |rows0| <= ASIDE
    requires forall i :: 0 <= i < |rows0| ==> rows0[i].cell >= 1
    ensures Renumbered(rows0, rows)
  {
    rows := AllAside(rows0);
    ghost var aside := rows;
    var cursor := QueryAll(rows);
    var cellnum := 0;
    var j := 0;
    while j < |cursor|
      invariant 0 <= j <= |cursor| && cellnum == j
      invariant Moved(aside, cursor, j, rows)
    {
      MoveOne(aside, cursor, j, rows);
      cellnum := cellnum + 1;
      var sqlCell := cursor[j].cell;
      if sqlCell > cellnum {
        rows := Recell(rows, sqlCell, cellnum);
      }
      j := j + 1;
    }
    AllMoved(rows0, cursor, rows);
  }

  lemma RenumberedIsDistinct(before: seq<Row>, after: seq<Row>)
    requires DistinctCells(before) && Renumbered(before, after)
    ensures DistinctCells(after) && Contents(after) == Contents(before)
  {
    forall i, j | 0 <= i < j < |after|
      ensures after[i].cell != after[j].cell
    {
      assert Earlier(before[i], before[j]) || Earlier(before[j], before[i]);
    }
    assert Stacks(after) == Stacks(before);
  }
}
