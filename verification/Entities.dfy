/** Items of the entity kind: every unit has an entity of its own, whatever happens to the bag. */
module Entities {
  import opened BagTable
  import opened BagSort
  import opened FreeCells
  import opened Purchase
  import opened BagSvc

  /** No two stacks share an entity. */
  ghost predicate Own(rows: seq<Row>) {
    forall i, j :: 0 <= i < j < |rows| && rows[i].stack.entityID != 0 ==>
      rows[i].stack.entityID != rows[j].stack.entityID
  }

  ghost predicate OwnApart(a: seq<Row>, b: seq<Row>) {
    forall i, j :: 0 <= i < |a| && 0 <= j < |b| && a[i].stack.entityID != 0 ==>
      a[i].stack.entityID != b[j].stack.entityID
  }

  ghost predicate Below(rows: seq<Row>, n: int) {
    forall i :: 0 <= i < |rows| ==> rows[i].stack.entityID < n
  }

  /** No two stacks of bag and store share an entity, and the next one is new. */
  ghost predicate OwnEntities(s: Books) {
    && 1 <= s.nextEntity && Below(s.bag, s.nextEntity) && Below(s.store, s.nextEntity)
    && Own(s.bag) && Own(s.store) && OwnApart(s.bag, s.store)
  }

  /** Every row of b has the entity of a row of a, and different rows that of different ones. */
  ghost predicate Inherits(a: seq<Row>, b: seq<Row>, from: seq<int>) {
    && |from| == |b|
    && (forall j :: 0 <= j < |b| ==> 0 <= from[j] < |a| && b[j].stack.entityID == a[from[j]].stack.entityID)
    && forall i, j :: 0 <= i < j < |b| && b[i].stack.entityID != 0 ==> from[i] != from[j]
  }

  lemma InheritedIsOwn(s: Books, t: Books, from: seq<int>)
    requires OwnEntities(s) && Inherits(s.bag, t.bag, from)
    requires t.store == s.store && t.nextEntity == s.nextEntity
    ensures OwnEntities(t)
  {
    forall i, j | 0 <= i < j < |t.bag| && t.bag[i].stack.entityID != 0
      ensures t.bag[i].stack.entityID != t.bag[j].stack.entityID
    {
      assert from[i] != from[j];
      assert from[i] < from[j] || from[j] < from[i];
    }
  }

  lemma TakenInherits(rows: seq<Row>, i: nat, n: int) returns (from: seq<int>)
    requires i < |rows|
    ensures Inherits(rows, Taken(rows, i, n), from)
  {
    var gone := rows[i].stack.num == n;
    from := seq(|Taken(rows, i, n)|, j => if gone && j >= i then j + 1 else j);
  }

  lemma MergedInherits(stackable: set<int>, before: seq<Row>, after: seq<Row>) returns (from: seq<int>)
    requires DistinctCells(before) && DistinctCells(after) && OnlyNumsOfOpen(stackable, before, after)
    ensures Inherits(before, after, from)
  {
    from := seq(|after|, j requires 0 <= j < |after| => Find(before, after[j].cell));
    forall j | 0 <= j < |after|
      ensures 0 <= from[j] < |before| && before[from[j]].cell == after[j].cell
      ensures after[j].stack.entityID == before[from[j]].stack.entityID
    {
      assert after[j] in after;
      var b :| b in before && b.cell == after[j].cell && after[j] == WithNum(b, after[j].stack.num);
      var k :| 0 <= k < |before| && before[k] == b;
      FindRow(before, k);
    }
  }

  lemma SameStacksInherit(a: seq<Row>, b: seq<Row>) returns (from: seq<int>)
    requires |a| == |b| && forall j :: 0 <= j < |b| ==> b[j].stack == a[j].stack
    ensures Inherits(a, b, from)
  {
    from := seq(|b|, j => j);
  }

  lemma SortKeepsOwn(stackable: set<int>, top: int, s: Books, t: Books)
    requires OwnEntities(s) && Safe(s.bag, top) && Sorted(stackable, top, s.bag, t.bag)
    requires t == s.(bag := t.bag)
    ensures OwnEntities(t)
  {
    var mid :| Safe(mid, top) && OnlyNumsOfOpen(stackable, s.bag, mid) && SameUnits(s.bag, mid) &&
      Compact(stackable, mid) && LeastKeepsRest(stackable, s.bag, mid) && Renumbered(mid, t.bag);
    var from := MergedInherits(stackable, s.bag, mid);
    InheritedIsOwn(s, s.(bag := mid), from);
    from := SameStacksInherit(mid, t.bag);
    InheritedIsOwn(s.(bag := mid), t, from);
  }

  /** New entities are numbered on from the next one. */
  lemma PurchaseKeepsOwn(top: int, s: Books, item: Item, num: nat, t: Books)
    requires OwnEntities(s) && t.store == s.store
    requires BoughtFor(s.bag, top, s.purse, s.nextEntity, item, num, t.bag, t.purse)
    requires t.nextEntity == s.nextEntity + EntitiesMade(item, num)
    ensures OwnEntities(t)
  {
    SizesAreExact(item, num);
    var n := |s.bag|;
    forall i | n <= i < |t.bag|
      ensures t.bag[i].stack.entityID == if item.itemType == ENTITY_TYPE then s.nextEntity + (i - n) else 0
      ensures t.bag[i].stack.entityID < t.nextEntity
    {
    }
    assert forall i :: 0 <= i < n ==> t.bag[i] == s.bag[i];
  }

  lemma StoreKeepsOwn(top: int, s: Books, cell: int, storeCell: int, t: Books)
    requires OwnEntities(s) && Stored(s.bag, s.store, cell, storeCell, t.bag, t.store)
    requires t == s.(bag := t.bag, store := t.store)
    ensures OwnEntities(t)
  {
    var i, j := Find(s.bag, cell), Find(s.store, storeCell);
    if j == |s.store| {
      assert forall k :: 0 <= k < |t.bag| ==> t.bag[k] == s.bag[if k < i then k else k + 1];
      assert forall k :: 0 <= k < |t.store| ==>
        t.store[k].stack == if k < |s.store| then s.store[k].stack else s.bag[i].stack;
    }
  }

  lemma TakeKeepsOwn(s: Books, cell: int, n: int, t: Books)
    requires OwnEntities(s) && TakenFrom(s.bag, cell, n, t.bag)
    requires t.store == s.store && t.nextEntity == s.nextEntity
    ensures OwnEntities(t)
  {
    var from := TakenInherits(s.bag, Find(s.bag, cell), n);
    InheritedIsOwn(s, t, from);
  }

  lemma ServedKeepsOwn(top: int, s: Books, r: Request, t: Books)
    requires OwnEntities(s) && Safe(s.bag, top) && Served(top, s, r, t)
    ensures OwnEntities(t)
  {
    match r
    case Buy(item, num) =>
      if Buyable(top, s, item, num) {
        PurchaseKeepsOwn(top, s, item.value, num, t);
      }
    case Use(cell, allowed) =>
      if Occupied(s.bag, cell) && allowed {
        TakeKeepsOwn(s, cell, 1, t);
      }
    case Sell(cell, num, price) =>
      if Occupied(s.bag, cell) && Sellable(s.StackAt(cell), num) {
        TakeKeepsOwn(s, cell, UnitsSold(s.StackAt(cell), num), t);
      }
    case Drop(cell) =>
      if Occupied(s.bag, cell) {
        TakeKeepsOwn(s, cell, s.StackAt(cell).num, t);
      }
    case Sort(stackable) => SortKeepsOwn(stackable, top, s, t);
    case Swap(cell1, cell2) =>
      if Occupied(s.bag, cell1) {
        var from := SameStacksInherit(s.bag, t.bag);
        InheritedIsOwn(s, t, from);
      }
    case Store(bagCell, storeCell) =>
      if Occupied(s.bag, bagCell) {
        StoreKeepsOwn(top, s, bagCell, storeCell, t);
      }
  }

  /** Over any run of requests, starting with an empty bag or any other of which this is true: no two
      stacks of bag and store ever share an entity, and entities are never used again. */
  lemma {:induction false} RunKeepsOwn(top: int, trail: seq<Books>, requests: seq<Request>, n: nat)
    requires Chain(Serving(top), trail, requests) && n <= |requests|
    requires OwnEntities(trail[0])
    ensures OwnEntities(trail[n])
    ensures trail[0].nextEntity <= trail[n].nextEntity
  {
    if n > 0 {
      RunKeepsOwn(top, trail, requests, n - 1);
      assert Serving(top)(trail[n - 1], requests[n - 1], trail[n]);
      ServedKeepsOwn(top, trail[n - 1], requests[n - 1], trail[n]);
      EntitiesAdvance(top, trail[n - 1], requests[n - 1], trail[n]);
    }
  }

  lemma EntitiesAdvance(top: int, s: Books, r: Request, t: Books)
    requires Served(top, s, r, t)
    ensures s.nextEntity <= t.nextEntity
  {
  }
}
