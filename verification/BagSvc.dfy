/** The bag service: one role's Bag and StoreBag rows and its money, and the requests that change
    them. Every SQL statement is taken to succeed. */
module BagSvc {
  import opened BagTable
  import opened BagSort
  import opened FreeCells
  import opened Purchase

  datatype Option<T> = None | Some(value: T)

  datatype Request =
    | Buy(item: Option<Item>, num: nat)
    | Use(cell: int, allowed: bool)
    | Sell(sellCell: int, sellNum: nat, price: nat)
    | Drop(dropCell: int)
    | Sort(stackable: set<int>)
    | Swap(cell1: int, cell2: int)
    | Store(bagCell: int, storeCell: int)

  /** A swap names a cell of the bag as its destination. */
  predicate InRange(top: int, r: Request) {
    r.Swap? ==> 1 <= r.cell2 <= top
  }

  /** Requests that only move things around. */
  predicate Moves(r: Request) {
    r.Sort? || r.Swap? || r.Store?
  }

  /** The bag after a sort: merged, then renumbered. */
  ghost predicate Sorted(stackable: set<int>, top: int, before: seq<Row>, after: seq<Row>) {
    exists mid :: Safe(mid, top) && OnlyNumsOfOpen(stackable, before, mid) && SameUnits(before, mid) &&
      Compact(stackable, mid) && LeastKeepsRest(stackable, before, mid) && Renumbered(mid, after)
  }

  /** The store keeps stacks as the bag does, but nothing limits its cells. */
  ghost predicate SafeStore(store: seq<Row>) {
    DistinctCells(store) && forall i :: 0 <= i < |store| ==> 1 <= store[i].stack.num <= TOPSTACK_NUM
  }

  predicate Sellable(stack: Stack, num: nat) {
    stack.entityID != 0 || num <= stack.num
  }

  function UnitsSold(stack: Stack, num: nat): int {
    if stack.entityID == 0 then num else stack.num
  }

  /** The seller is paid for as many units as were asked for, which are the units that go if and only
      if the stack has no entity or was asked for as it is. */
  lemma CreditIsForUnitsIff(stack: Stack, num: nat, price: nat)
    requires Sellable(stack, num)
    ensures price * num == price * UnitsSold(stack, num) <==>
      price == 0 || stack.entityID == 0 || num == stack.num
  {
    var d := num - UnitsSold(stack, num);
    assert price * num == price * UnitsSold(stack, num) + price * d;
    if price != 0 && d != 0 {
      NoZeroProduct(price, d);
    }
  }

  lemma NoZeroProduct(a: int, b: int)
    requires a != 0 && b != 0
    ensures a * b != 0
  {
  }

  /** One sword, sold as five for 7 each. */
  lemma EntityOverpaid()
    ensures var sword := Stack(1, ENTITY_TYPE, 300, 12, 1);
      Sellable(sword, 5) && UnitsSold(sword, 5) == 1 && 7 * 5 > 7 * UnitsSold(sword, 5)
  {
  }

  /** A completed purchase: the new rows, and the price paid. */
  ghost predicate BoughtFor(bag: seq<Row>, top: int, purse: Purse, nextEntity: int, item: Item, num: nat,
                            bag': seq<Row>, purse': Purse) {
    var cost := item.price * num;
    && CellsNeeded(item, num) <= |FreeUpTo(CellsOf(bag), top)|
    && bag' == Bought(bag, top, item, num, nextEntity)
    && CanPay(purse, item.buyType, cost) && purse' == Paid(purse, item.buyType, cost)
  }

  class Bags {
    var bag: seq<Row>
    var store: seq<Row>
    var purse: Purse
    var nextEntity: int
    const top: int

    /** The cells that hold rows while others are moved lie above all cells of the bag. */
    ghost predicate Valid()
      reads this
    {
      0 <= top <= ASIDE && Safe(bag, top) && SafeStore(store)
    }

    function State(): Books
      reads this
    {
      Books(bag, store, purse, nextEntity)
    }

    /** The units of an item in both tables. */
    function Held(itemID: int): int
      reads this
    {
      State().Held(itemID)
    }

    constructor (top: int, purse: Purse)
      requires 0 <= top <= ASIDE
      ensures Valid() && State() == Books([], [], purse, 1) && this.top == top
    {
      this.top, this.purse := top, purse;
      bag, store, nextEntity := [], [], 1;
    }

    /** Dropmoney and DropGold, by the money type of the item. */
    method Pay(buyType: int, cost: nat) returns (ok: bool)
      modifies this`purse
      ensures ok <==> CanPay(old(purse), buyType, cost)
      ensures purse == if ok then Paid(old(purse), buyType, cost) else old(purse)
    {
      if buyType == 3 {
        if purse.gold < cost {
          return false;
        }
        purse := purse.(gold := purse.gold - cost);
      } else if buyType == 1 || buyType == 2 {
        if purse.money + purse.bindMoney < cost {
          return false;
        }
        if purse.bindMoney >= cost {
          purse := purse.(bindMoney := purse.bindMoney - cost);
        } else {
          var money := purse.money - (cost - purse.bindMoney);
          purse := purse.(money := money, bindMoney := 0);
        }
      }
      return true;
    }

    /** select CellIndex ... order by CellIndex asc */
    method QueryCells() returns (cells: seq<int>)
      requires Valid()
      ensures Ascending(cells, top) && |cells| == |bag|
      ensures forall c :: c in cells <==> c in CellsOf(bag)
    {
      var rows := QueryOrdered(bag, (r: Row) => r.cell, (r: Row) => 0);
      SameRowsDistinct(bag, rows);
      SameRowsSafe(bag, rows, top);
      cells := CellsOf(rows);
      CellsAscend(rows, top);
      forall c
        ensures c in cells <==> c in CellsOf(bag)
      {
        SameCells(rows, bag, c);
        SameCells(bag, rows, c);
      }
    }

    /** ProcessBuyItem. The item is None when it is not in the Item table. */
    method ProcessBuyItem(item: Option<Item>, num: nat) returns (ok: bool)
      requires Valid()
      modifies this`bag, this`purse, this`nextEntity
      ensures ok <==> Buyable(top, old(State()), item, num)
      ensures !ok ==> bag == old(bag) && purse == old(purse) && nextEntity == old(nextEntity)
      ensures ok ==> BoughtFor(old(bag), top, old(purse), old(nextEntity), item.value, num, bag, purse)
      ensures ok ==> nextEntity == old(nextEntity) + EntitiesMade(item.value, num)
      ensures Valid()
    {
      if item == None {
        return false;
      }
      var it := item.value;
      var known, flag, numcell, want := PlanCells(it, num);
      if !known {
        return false;
      }
      var room, cell := FindRoom(want);
      if !room {
        return false;
      }
      ok := Pay(it.buyType, it.price * num);
      if !ok {
        return;
      }
      SizesAreExact(it, num);
      InsertRows(it, num, flag, numcell, cell);
      BoughtExactly(old(bag), top, it, num, old(nextEntity), it.itemID);
    }

    /** How the item is kept, and how many cells that takes. */
    method PlanCells(item: Item, num: nat) returns (known: bool, flag: int, numcell: nat, want: nat)
      ensures known <==> !(item.itemType == ENTITY_TYPE && item.isStack == 1)
      ensures known ==> want == CellsNeeded(item, num) && (flag == 2 ==> numcell == want)
      ensures known ==> flag == if item.itemType == ENTITY_TYPE then 0 else if item.isStack == 0 then 1 else 2
    {
      known, numcell, want := true, 1, num;
      if item.itemType == ENTITY_TYPE {
        flag := 0;
        known := item.isStack != 1;
      } else if item.isStack == 0 {
        flag := 1;
      } else {
        flag := 2;
        numcell := num / TOPSTACK_NUM;
        if num % TOPSTACK_NUM != 0 {
          numcell := numcell + 1;
        }
        want := numcell;
      }
    }

    /** The lowest free cells, as many as are wanted, if there are so many. */
    method FindRoom(want: nat) returns (room: bool, cell: seq<int>)
      requires Valid()
      ensures room <==> want == 0 || |bag| + want <= top
      ensures room ==> want <= |FreeUpTo(CellsOf(bag), top)| && cell == FreeUpTo(CellsOf(bag), top)[..want]
    {
      var cells := QueryCells();
      FreeCount(cells, top);
      SameBelow(cells, CellsOf(bag), top);
      var ret;
      ret, cell := Ifhassomany(cells, top, want);
      room := ret == 1;
    }

    /** The insert loop, over the cells that were found. */
    method InsertRows(item: Item, num: nat, flag: int, numcells: int, cell: seq<int>)
      requires |cell| == |StackSizes(item, num)|
      requires flag == if item.itemType == ENTITY_TYPE then 0 else if item.isStack == 0 then 1 else 2
      requires flag == 2 ==> numcells == |cell|
      modifies this`bag, this`nextEntity
      ensures bag == old(bag) + NewRows(item, cell, StackSizes(item, num), old(nextEntity))
      ensures nextEntity == old(nextEntity) + if flag == 0 then |cell| else 0
    {
      var numcell := numcells;
      var k := 0;
      while k < |cell|
        invariant 0 <= k <= |cell| && numcell == numcells - k
        invariant nextEntity == old(nextEntity) + if flag == 0 then k else 0
        invariant bag == old(bag) + NewRows(item, cell, StackSizes(item, num), old(nextEntity))[..k]
      {
        var stack := Stack(item.cellType, item.itemType, item.itemID, 0, 1);
        if flag == 0 {
          stack := stack.(entityID := nextEntity);
          nextEntity := nextEntity + 1;
        } else if flag == 2 {
          CountForIsSplit(num, k);
          var count := if numcell == 1 then if num % TOPSTACK_NUM == 0 then TOPSTACK_NUM else num % TOPSTACK_NUM
                       else TOPSTACK_NUM;
          stack := stack.(num := count);
        }
        assert NewRows(item, cell, StackSizes(item, num), old(nextEntity))[k] == Row(cell[k], stack);
        bag := bag + [Row(cell[k], stack)];
        numcell := numcell - 1;
        k := k + 1;
      }
    }

    /** Takes units out of the stack at index i: an emptied stack's row is deleted, otherwise its
        number is updated. */
    method Take(i: nat, n: nat)
      requires Valid() && i < |bag| && n <= bag[i].stack.num
      modifies this`bag
      ensures TakenFrom(old(bag), old(bag)[i].cell, n, bag)
      ensures Valid()
    {
      TakeKeepsSafe(bag, top, i, n);
      var num := bag[i].stack.num;
      if num == n {
        bag := DeleteCell(bag, bag[i].cell);
      } else {
        bag := SetNum(bag, bag[i].cell, num - n);
      }
    }

    /** ProcessUseItem, once level, profession and the item's own effect have been settled. */
    method ProcessUseItem(cell: int, allowed: bool) returns (ok: bool)
      requires Valid()
      modifies this`bag
      ensures ok <==> old(Occupied(bag, cell)) && allowed
      ensures ok ==> TakenFrom(old(bag), cell, 1, bag)
      ensures !ok ==> bag == old(bag)
      ensures Valid()
    {
      var i := Find(bag, cell);
      if i == |bag| || !allowed {
        return false;
      }
      Take(i, 1);
      return true;
    }

    /** ProcessSellItem, for a seller who may sell. A stack with an entity goes whole, and is credited
        by the number that was asked for. */
    method ProcessSellItem(cell: int, num: nat, price: nat) returns (ok: bool)
      requires Valid()
      modifies this`bag, this`purse
      ensures ok <==> old(Occupied(bag, cell)) && Sellable(old(bag)[Find(old(bag), cell)].stack, num)
      ensures ok ==> TakenFrom(old(bag), cell, UnitsSold(old(bag)[Find(old(bag), cell)].stack, num), bag)
      ensures ok ==> purse == old(purse).(bindMoney := old(purse).bindMoney + price * num)
      ensures !ok ==> bag == old(bag) && purse == old(purse)
      ensures Valid()
    {
      var i := Find(bag, cell);
      if i == |bag| {
        return false;
      }
      if bag[i].stack.entityID == 0 {
        if bag[i].stack.num < num {
          return false;
        }
        Take(i, num);
      } else {
        Take(i, bag[i].stack.num);
      }
      purse := purse.(bindMoney := purse.bindMoney + price * num);
      return true;
    }

    /** ProcessDropItem: the whole stack goes. */
    method ProcessDropItem(cell: int) returns (ok: bool)
      requires Valid()
      modifies this`bag
      ensures ok <==> old(Occupied(bag, cell))
      ensures ok ==> TakenFrom(old(bag), cell, old(bag)[Find(old(bag), cell)].stack.num, bag)
      ensures !ok ==> bag == old(bag)
      ensures Valid()
    {
      var i := Find(bag, cell);
      if i == |bag| {
        return false;
      }
      Take(i, bag[i].stack.num);
      return true;
    }

    /** ProcessSortItem. */
    method ProcessSortItem(stackable: set<int>)
      requires Valid()
      modifies this`bag
      ensures Sorted(stackable, top, old(bag), bag)
      ensures Valid()
    {
      var mid := MergeStacks(stackable, top, bag);
      SafeFits(mid, top);
      bag := Renumber(mid);
      RenumberedIsSafe(mid, bag, top);
    }

    /** ProcesschangeItem: two stacks trade places, by way of a cell aside, or one moves. */
    method ProcesschangeItem(cell1: int, cell2: int) returns (ok: bool)
      requires Valid()
      modifies this`bag
      ensures ok <==> old(Occupied(bag, cell1))
      ensures ok ==> bag == Swapped(old(bag), cell1, cell2)
      ensures !ok ==> bag == old(bag)
      ensures Contents(bag) == old(Contents(bag))
      ensures Valid() <==> !ok || 1 <= cell2 <= top
    {
      if !Occupied(bag, cell1) {
        return false;
      }
      if !Occupied(bag, cell2) {
        SwapMoves(bag, cell1, cell2);
        bag := Recell(bag, cell1, cell2);
      } else {
        SwapTrades(bag, top, cell1, cell2);
        bag := Recell(bag, cell1, cell1 + ASIDE);
        bag := Recell(bag, cell2, cell1);
        bag := Recell(bag, cell1 + ASIDE, cell2);
      }
      SwapIsSafeIff(old(bag), top, cell1, cell2);
      assert Stacks(bag) == Stacks(old(bag));
      return true;
    }

    /** ProcessputintoStoreBag: a stack goes into the store, or trades places with the one there. */
    method ProcessputintoStoreBag(cell: int, storeCell: int) returns (ok: bool)
      requires Valid()
      modifies this`bag, this`store
      ensures ok <==> old(Occupied(bag, cell))
      ensures !ok ==> bag == old(bag) && store == old(store)
      ensures ok ==> Stored(old(bag), old(store), cell, storeCell, bag, store)
      ensures Contents(bag) + Contents(store) == old(Contents(bag) + Contents(store))
      ensures Valid()
    {
      var i, j := Find(bag, cell), Find(store, storeCell);
      if i == |bag| {
        return false;
      }
      var mine := bag[i].stack;
      if j < |store| {
        var theirs := store[j].stack;
        TradeWithStore(bag, store, i, j, top);
        store := SetStack(store, storeCell, mine);
        bag := SetStack(bag, cell, theirs);
      } else {
        MoveToStore(bag, store, i, storeCell, top);
        store := store + [Row(storeCell, mine)];
        bag := DeleteCell(bag, cell);
      }
      return true;
    }

    /** Any run of requests whose swaps name cells of the bag keeps the bag and the store safe, and the
        accounts balance: units and balances are the old ones and what the requests have brought. */
    method Serve(requests: seq<Request>) returns (ghost trail: seq<Books>)
      requires Valid() && forall k :: 0 <= k < |requests| ==> InRange(top, requests[k])
      modifies this
      ensures Valid()
      ensures Chain(Serving(top), trail, requests) && trail[0] == old(State()) && trail[|requests|] == State()
      ensures var deals := DealsOf(top, trail, requests);
        && (forall itemID :: Held(itemID) == old(Held(itemID)) + Dealt(deals, itemID))
        && purse.money == old(purse).money + Earned(deals)
        && purse.bindMoney == old(purse).bindMoney + BindEarned(deals)
        && purse.gold == old(purse).gold + GoldEarned(deals)
      ensures (forall k :: 0 <= k < |requests| ==> Moves(requests[k])) ==>
        purse == old(purse) && forall itemID :: Held(itemID) == old(Held(itemID))
    {
      trail := [State()];
      var k := 0;
      while k < |requests|
        invariant 0 <= k <= |requests| && Valid()
        invariant Chain(Serving(top), trail, requests[..k]) && trail[0] == old(State()) && trail[k] == State()
        invariant (forall j :: 0 <= j < |requests| ==> Moves(requests[j])) ==>
          purse == old(purse) && forall itemID :: Held(itemID) == old(Held(itemID))
      {
        ServeOne(requests[k]);
        assert requests[..k + 1] == requests[..k] + [requests[k]];
        ChainGrows(Serving(top), trail, requests[..k], requests[k], State());
        trail := trail + [State()];
        k := k + 1;
      }
      assert requests[..k] == requests;
      forall itemID
        ensures Held(itemID) == old(Held(itemID)) + Dealt(DealsOf(top, trail, requests), itemID)
      {
        RunBalances(top, trail, requests, itemID);
      }
      RunBalances(top, trail, requests, 0);
    }

    method ServeOne(r: Request)
      requires Valid() && InRange(top, r)
      modifies this
      ensures Valid()
      ensures Served(top, old(State()), r, State())
      ensures Moves(r) ==> purse == old(purse) && forall itemID :: Held(itemID) == old(Held(itemID))
      ensures r.Swap? || r.Store? ==> Contents(bag) + Contents(store) == old(Contents(bag) + Contents(store))
      ensures !r.Store? ==> store == old(store)
    {
      var ok;
      match r {
      case Buy(item, num) => ok := ProcessBuyItem(item, num);
      case Use(cell, allowed) => ok := ProcessUseItem(cell, allowed);
      case Sell(cell, num, price) => ok := ProcessSellItem(cell, num, price);
      case Drop(cell) => ok := ProcessDropItem(cell);
      case Sort(stackable) => ProcessSortItem(stackable);
      case Swap(cell1, cell2) => ok := ProcesschangeItem(cell1, cell2);
      case Store(bagCell, storeCell) => ok := ProcessputintoStoreBag(bagCell, storeCell);
      }
      ServedKeeps(top, old(State()), r, State());
    }
  }

  // -------- accounts

  /** The tables and the purse at one moment. */
  datatype Books = Books(bag: seq<Row>, store: seq<Row>, purse: Purse, nextEntity: int) {
    function Held(itemID: int): int {
      Units(bag, itemID, false) + Units(store, itemID, false)
    }

    function StackAt(cell: int): Stack
      requires Occupied(bag, cell)
    {
      bag[Find(bag, cell)].stack
    }
  }

  predicate Buyable(top: int, s: Books, item: Option<Item>, num: nat) {
    && item.Some? && !(item.value.itemType == ENTITY_TYPE && item.value.isStack == 1)
    && (CellsNeeded(item.value, num) == 0 || |s.bag| + CellsNeeded(item.value, num) <= top)
    && CanPay(s.purse, item.value.buyType, item.value.price * num)
  }

  /** The effect of a request, granted or refused. */
  ghost predicate Served(top: int, s: Books, r: Request, t: Books) {
    match r
    case Buy(item, num) =>
      if Buyable(top, s, item, num) then
        && BoughtFor(s.bag, top, s.purse, s.nextEntity, item.value, num, t.bag, t.purse)
        && t.store == s.store && t.nextEntity == s.nextEntity + EntitiesMade(item.value, num)
      else t == s
    case Use(cell, allowed) =>
      if Occupied(s.bag, cell) && allowed then TakenFrom(s.bag, cell, 1, t.bag) && t == s.(bag := t.bag)
      else t == s
    case Sell(cell, num, price) =>
      if Occupied(s.bag, cell) && Sellable(s.StackAt(cell), num) then
        && TakenFrom(s.bag, cell, UnitsSold(s.StackAt(cell), num), t.bag)
        && t == s.(bag := t.bag, purse := s.purse.(bindMoney := s.purse.bindMoney + price * num))
      else t == s
    case Drop(cell) =>
      if Occupied(s.bag, cell) then TakenFrom(s.bag, cell, s.StackAt(cell).num, t.bag) && t == s.(bag := t.bag)
      else t == s
    case Sort(stackable) => Sorted(stackable, top, s.bag, t.bag) && t == s.(bag := t.bag)
    case Swap(cell1, cell2) =>
      t == if Occupied(s.bag, cell1) then s.(bag := Swapped(s.bag, cell1, cell2)) else s
    case Store(bagCell, storeCell) =>
      if Occupied(s.bag, bagCell) then
        Stored(s.bag, s.store, bagCell, storeCell, t.bag, t.store) && t == s.(bag := t.bag, store := t.store)
      else t == s
  }

  /** What a request brings: units of an item, free and bound money, and gold. */
  datatype Deal = Deal(itemID: int, units: int, money: int, bindMoney: int, gold: int)

  const NOTHING := Deal(0, 0, 0, 0, 0)

  /** The part of a cost that bound money covers. */
  function FromBound(purse: Purse, cost: nat): int {
    if cost <= purse.bindMoney then cost else purse.bindMoney
  }

  function DealOf(top: int, s: Books, r: Request): Deal {
    match r
    case Buy(item, num) =>
      if !Buyable(top, s, item, num) then NOTHING
      else
        var cost, buyType := item.value.price * num, item.value.buyType;
        if buyType == 3 then Deal(item.value.itemID, num, 0, 0, -cost)
        else if buyType == 1 || buyType == 2 then
          Deal(item.value.itemID, num, FromBound(s.purse, cost) - cost, -FromBound(s.purse, cost), 0)
        else Deal(item.value.itemID, num, 0, 0, 0)
    case Use(cell, allowed) =>
      if Occupied(s.bag, cell) && allowed then Deal(s.StackAt(cell).itemID, -1, 0, 0, 0) else NOTHING
    case Sell(cell, num, price) =>
      if Occupied(s.bag, cell) && Sellable(s.StackAt(cell), num) then
        Deal(s.StackAt(cell).itemID, -UnitsSold(s.StackAt(cell), num), 0, price * num, 0)
      else NOTHING
    case Drop(cell) =>
      if Occupied(s.bag, cell) then Deal(s.StackAt(cell).itemID, -s.StackAt(cell).num, 0, 0, 0) else NOTHING
    case _ => NOTHING
  }

  function UnitsOf(d: Deal, itemID: int): int {
    if d.itemID == itemID then d.units else 0
  }

  /** The request has exactly the effect on the accounts that its deal says. */
  ghost predicate Balances(s: Books, d: Deal, t: Books, itemID: int) {
    && t.Held(itemID) == s.Held(itemID) + UnitsOf(d, itemID)
    && t.purse.money == s.purse.money + d.money && t.purse.bindMoney == s.purse.bindMoney + d.bindMoney
    && t.purse.gold == s.purse.gold + d.gold
  }

  lemma PurchaseBalances(top: int, s: Books, item: Option<Item>, num: nat, t: Books, itemID: int)
    requires 0 <= top && Safe(s.bag, top) && Buyable(top, s, item, num) && Served(top, s, Buy(item, num), t)
    ensures Balances(s, DealOf(top, s, Buy(item, num)), t, itemID)
  {
    BoughtExactly(s.bag, top, item.value, num, s.nextEntity, itemID);
  }

  lemma StoreBalances(top: int, s: Books, bagCell: int, storeCell: int, t: Books, itemID: int)
    requires Safe(s.bag, top) && SafeStore(s.store) && Occupied(s.bag, bagCell)
    requires Served(top, s, Store(bagCell, storeCell), t)
    ensures Balances(s, NOTHING, t, itemID)
  {
    StoredKeeps(top, s.bag, s.store, bagCell, storeCell, t.bag, t.store);
    ContentsDecideHeld(s.bag, s.store, t.bag, t.store, itemID);
  }

  lemma SortBalances(top: int, s: Books, stackable: set<int>, t: Books, itemID: int)
    requires 0 <= top && Safe(s.bag, top) && Served(top, s, Sort(stackable), t)
    ensures Balances(s, NOTHING, t, itemID)
  {
    SortKeepsUnits(stackable, top, s.bag, t.bag);
  }

  lemma ServedBalances(top: int, s: Books, r: Request, t: Books, itemID: int)
    requires 0 <= top && Safe(s.bag, top) && SafeStore(s.store) && Served(top, s, r, t)
    ensures Balances(s, DealOf(top, s, r), t, itemID)
  {
    match r
    case Buy(item, num) =>
      if Buyable(top, s, item, num) {
        PurchaseBalances(top, s, item, num, t, itemID);
      }
    case Use(cell, allowed) =>
      if Occupied(s.bag, cell) && allowed {
        TakenExactly(s.bag, cell, 1, t.bag, itemID);
      }
    case Sell(cell, num, price) =>
      if Occupied(s.bag, cell) && Sellable(s.StackAt(cell), num) {
        TakenExactly(s.bag, cell, UnitsSold(s.StackAt(cell), num), t.bag, itemID);
      }
    case Drop(cell) =>
      if Occupied(s.bag, cell) {
        TakenExactly(s.bag, cell, s.StackAt(cell).num, t.bag, itemID);
      }
    case Sort(stackable) => SortBalances(top, s, stackable, t, itemID);
    case Swap(cell1, cell2) =>
      if Occupied(s.bag, cell1) {
        assert Stacks(t.bag) == Stacks(s.bag);
        ContentsDecideUnits(s.bag, t.bag, itemID, false);
      }
    case Store(bagCell, storeCell) =>
      if Occupied(s.bag, bagCell) {
        StoreBalances(top, s, bagCell, storeCell, t, itemID);
      }
  }

  /** The states before each request of a run, and after the last: each step leads to the next one. */
  ghost predicate Chain<S, R>(step: (S, R, S) -> bool, trail: seq<S>, requests: seq<R>) {
    |trail| == |requests| + 1 && forall k :: 0 <= k < |requests| ==> step(trail[k], requests[k], trail[k + 1])
  }

  lemma ChainGrows<S, R>(step: (S, R, S) -> bool, trail: seq<S>, requests: seq<R>, r: R, t: S)
    requires Chain(step, trail, requests) && step(trail[|requests|], r, t)
    ensures Chain(step, trail + [t], requests + [r])
  {
    forall k | 0 <= k < |requests| + 1
      ensures step((trail + [t])[k], (requests + [r])[k], (trail + [t])[k + 1])
    {
      assert (trail + [t])[k] == trail[k];
    }
  }

  /** A request served on safe books. */
  ghost function Serving(top: int): (Books, Request, Books) -> bool {
    (s: Books, r: Request, t: Books) => Safe(s.bag, top) && SafeStore(s.store) && Served(top, s, r, t)
  }

  function DealsOf(top: int, trail: seq<Books>, requests: seq<Request>): seq<Deal>
    requires |requests| <= |trail|
  {
    seq(|requests|, k requires 0 <= k < |requests| => DealOf(top, trail[k], requests[k]))
  }

  function Dealt(deals: seq<Deal>, itemID: int): int {
    if deals == [] then 0 else UnitsOf(deals[0], itemID) + Dealt(deals[1..], itemID)
  }

  function Earned(deals: seq<Deal>): int {
    if deals == [] then 0 else deals[0].money + Earned(deals[1..])
  }

  function BindEarned(deals: seq<Deal>): int {
    if deals == [] then 0 else deals[0].bindMoney + BindEarned(deals[1..])
  }

  function GoldEarned(deals: seq<Deal>): int {
    if deals == [] then 0 else deals[0].gold + GoldEarned(deals[1..])
  }

  /** Balanced deals add up. */
  lemma {:induction false} DealsAddUp(trail: seq<Books>, deals: seq<Deal>, itemID: int)
    requires |trail| == |deals| + 1
    requires forall k :: 0 <= k < |deals| ==> Balances(trail[k], deals[k], trail[k + 1], itemID)
    ensures trail[|deals|].Held(itemID) == trail[0].Held(itemID) + Dealt(deals, itemID)
    ensures trail[|deals|].purse.money == trail[0].purse.money + Earned(deals)
    ensures trail[|deals|].purse.bindMoney == trail[0].purse.bindMoney + BindEarned(deals)
    ensures trail[|deals|].purse.gold == trail[0].purse.gold + GoldEarned(deals)
  {
    if deals != [] {
      assert Balances(trail[0], deals[0], trail[1], itemID);
      DealsAddUp(trail[1..], deals[1..], itemID);
    }
  }

  /** Over any run, bought, used, sold and dropped units and what was paid and earned explain every
      balance; sorting, swapping and storing do not show up. */
  lemma RunBalances(top: int, trail: seq<Books>, requests: seq<Request>, itemID: int)
    requires 0 <= top && Chain(Serving(top), trail, requests)
    ensures var deals, n := DealsOf(top, trail, requests), |requests|;
      && trail[n].Held(itemID) == trail[0].Held(itemID) + Dealt(deals, itemID)
      && trail[n].purse.money == trail[0].purse.money + Earned(deals)
      && trail[n].purse.bindMoney == trail[0].purse.bindMoney + BindEarned(deals)
      && trail[n].purse.gold == trail[0].purse.gold + GoldEarned(deals)
  {
    forall k | 0 <= k < |requests|
      ensures Balances(trail[k], DealOf(top, trail[k], requests[k]), trail[k + 1], itemID)
    {
      assert Serving(top)(trail[k], requests[k], trail[k + 1]);
      ServedBalances(top, trail[k], requests[k], trail[k + 1], itemID);
    }
    DealsAddUp(trail, DealsOf(top, trail, requests), itemID);
  }

  /** What requests that only move things around leave alone. */
  lemma ServedKeeps(top: int, s: Books, r: Request, t: Books)
    requires 0 <= top && Safe(s.bag, top) && SafeStore(s.store) && Served(top, s, r, t)
    ensures Moves(r) ==> t.purse == s.purse && forall itemID :: t.Held(itemID) == s.Held(itemID)
    ensures r.Swap? || r.Store? ==> Contents(t.bag) + Contents(t.store) == Contents(s.bag) + Contents(s.store)
    ensures !r.Store? ==> t.store == s.store
  {
    if Moves(r) {
      forall itemID
        ensures t.Held(itemID) == s.Held(itemID)
      {
        ServedBalances(top, s, r, t, itemID);
      }
    }
    match r
    case Swap(cell1, cell2) =>
      if Occupied(s.bag, cell1) {
        assert Stacks(t.bag) == Stacks(s.bag);
      }
    case Store(bagCell, storeCell) =>
      if Occupied(s.bag, bagCell) {
        StoredKeeps(top, s.bag, s.store, bagCell, storeCell, t.bag, t.store);
      }
    case _ =>
  }

  lemma StoredKeeps(top: int, bag: seq<Row>, store: seq<Row>, cell: int, storeCell: int,
                    bag': seq<Row>, store': seq<Row>)
    requires Safe(bag, top) && SafeStore(store) && Stored(bag, store, cell, storeCell, bag', store')
    ensures Contents(bag') + Contents(store') == Contents(bag) + Contents(store)
  {
    var i, j := Find(bag, cell), Find(store, storeCell);
    if j < |store| {
      TradeWithStore(bag, store, i, j, top);
    } else {
      MoveToStore(bag, store, i, storeCell, top);
    }
  }

  /** How many units there are is a matter of what is in a table, not of where it lies. */
  lemma {:induction false} ContentsDecideUnits(a: seq<Row>, b: seq<Row>, itemID: int, loose: bool)
    requires Contents(a) == Contents(b)
    ensures Units(a, itemID, loose) == Units(b, itemID, loose)
    decreases |a|
  {
    assert |Contents(a)| == |Contents(b)|;
    if a != [] {
      assert Stacks(a)[0] in Contents(b);
      var i :| 0 <= i < |b| && Stacks(b)[i] == Stacks(a)[0];
      ContentsRemoved(a, 0);
      ContentsRemoved(b, i);
      assert a[..0] + a[1..] == a[1..];
      ContentsDecideUnits(a[1..], b[..i] + b[i + 1..], itemID, loose);
      UnitsRemoved(b, i, itemID, loose);
    }
  }

  lemma ContentsTogether(bag: seq<Row>, store: seq<Row>)
    ensures Contents(bag + store) == Contents(bag) + Contents(store)
  {
    assert Stacks(bag + store) == Stacks(bag) + Stacks(store);
  }

  lemma ContentsDecideHeld(bag: seq<Row>, store: seq<Row>, bag': seq<Row>, store': seq<Row>, itemID: int)
    requires Contents(bag) + Contents(store) == Contents(bag') + Contents(store')
    ensures Units(bag, itemID, false) + Units(store, itemID, false) ==
      Units(bag', itemID, false) + Units(store', itemID, false)
  {
    ContentsTogether(bag, store);
    ContentsTogether(bag', store');
    ContentsDecideUnits(bag + store, bag' + store', itemID, false);
    UnitsConcat(bag, store, itemID, false);
    UnitsConcat(bag', store', itemID, false);
  }

  /** The two tables after a stack has been put into the store. */
  ghost predicate Stored(bag: seq<Row>, store: seq<Row>, cell: int, storeCell: int, bag': seq<Row>, store': seq<Row>) {
    var i, j := Find(bag, cell), Find(store, storeCell);
    i < |bag| &&
    if j == |store| then
      bag' == bag[..i] + bag[i + 1..] && store' == store + [Row(storeCell, bag[i].stack)]
    else
      bag' == bag[i := Row(cell, store[j].stack)] && store' == store[j := Row(storeCell, bag[i].stack)]
  }

  lemma TradeWithStore(bag: seq<Row>, store: seq<Row>, i: int, j: int, top: int)
    requires Safe(bag, top) && SafeStore(store) && 0 <= i < |bag| && 0 <= j < |store|
    ensures var bag' := SetStack(bag, bag[i].cell, store[j].stack);
      var store' := SetStack(store, store[j].cell, bag[i].stack);
      && Safe(bag', top) && SafeStore(store')
      && Contents(bag') + Contents(store') == Contents(bag) + Contents(store)
      && bag' == bag[i := Row(bag[i].cell, store[j].stack)]
      && store' == store[j := Row(store[j].cell, bag[i].stack)]
  {
    SetStackOneRow(store, j, bag[i].stack);
    SetStackOneRow(bag, i, store[j].stack);
    ContentsReplaced(store, j, Row(store[j].cell, bag[i].stack));
    ContentsReplaced(bag, i, Row(bag[i].cell, store[j].stack));
    assert bag[i].stack in Stacks(bag) by {
      assert Stacks(bag)[i] == bag[i].stack;
    }
    assert store[j].stack in Stacks(store) by {
      assert Stacks(store)[j] == store[j].stack;
    }
  }

  lemma MoveToStore(bag: seq<Row>, store: seq<Row>, i: int, storeCell: int, top: int)
    requires Safe(bag, top) && SafeStore(store) && 0 <= i < |bag| && !Occupied(store, storeCell)
    ensures var r := Row(storeCell, bag[i].stack);
      && DeleteCell(bag, bag[i].cell) == bag[..i] + bag[i + 1..]
      && Safe(bag[..i] + bag[i + 1..], top) && SafeStore(store + [r])
      && Contents(bag[..i] + bag[i + 1..]) + Contents(store + [r]) == Contents(bag) + Contents(store)
  {
    DeleteOneRow(bag, i);
    RemoveKeepsSafe(bag, i, top);
    StoreGrows(store, Row(storeCell, bag[i].stack));
    MoveKeepsContents(bag, store, i, storeCell);
  }

  lemma RemoveKeepsSafe(rows: seq<Row>, i: int, top: int)
    requires Safe(rows, top) && 0 <= i < |rows|
    ensures Safe(rows[..i] + rows[i + 1..], top)
  {
    var rest := rows[..i] + rows[i + 1..];
    assert forall k :: 0 <= k < |rest| ==> rest[k] == rows[if k < i then k else k + 1];
  }

  lemma MoveKeepsContents(bag: seq<Row>, store: seq<Row>, i: int, storeCell: int)
    requires 0 <= i < |bag|
    ensures var r := Row(storeCell, bag[i].stack);
      Contents(bag[..i] + bag[i + 1..]) + Contents(store + [r]) == Contents(bag) + Contents(store)
  {
    var r := Row(storeCell, bag[i].stack);
    ContentsRemoved(bag, i);
    assert Stacks(store + [r]) == Stacks(store) + [r.stack];
    assert Stacks(bag)[i] == r.stack;
    MovedStack(Contents(bag), Contents(store), r.stack);
  }

  lemma MovedStack(a: multiset<Stack>, b: multiset<Stack>, s: Stack)
    requires s in a
    ensures (a - multiset{s}) + (b + multiset{s}) == a + b
  {
  }

  lemma StoreGrows(store: seq<Row>, r: Row)
    requires SafeStore(store) && !Occupied(store, r.cell) && 1 <= r.stack.num <= TOPSTACK_NUM
    ensures SafeStore(store + [r])
  {
    NotOccupied(store, r.cell);
  }

  lemma SameRowsSafe(a: seq<Row>, b: seq<Row>, top: int)
    requires Safe(a, top) && DistinctCells(b) && forall r :: r in a <==> r in b
    ensures Safe(b, top)
  {
    forall i | 0 <= i < |b|
      ensures 1 <= b[i].cell <= top && 1 <= b[i].stack.num <= TOPSTACK_NUM
    {
      assert b[i] in a;
    }
  }

  lemma CellsAscend(rows: seq<Row>, top: int)
    requires Safe(rows, top) && Ordered((r: Row) => r.cell, (r: Row) => 0, rows)
    ensures Ascending(CellsOf(rows), top)
  {
    forall i, j | 0 <= i < j < |rows|
      ensures rows[i].cell < rows[j].cell
    {
      assert InOrder((r: Row) => r.cell, (r: Row) => 0, rows[i], rows[j]);
    }
  }

  lemma SameCells(a: seq<Row>, b: seq<Row>, c: int)
    requires forall r :: r in a ==> r in b
    ensures c in CellsOf(a) ==> c in CellsOf(b)
  {
    if c in CellsOf(a) {
      var i :| 0 <= i < |a| && CellsOf(a)[i] == c;
      assert a[i] in b;
      var j :| 0 <= j < |b| && b[j] == a[i];
      assert CellsOf(b)[j] == c;
    }
  }

  /** The table after n units have been taken from row i: an emptied row is gone. */
  function Taken(rows: seq<Row>, i: nat, n: int): seq<Row>
    requires i < |rows|
  {
    if rows[i].stack.num == n then rows[..i] + rows[i + 1..]
    else rows[i := WithNum(rows[i], rows[i].stack.num - n)]
  }

  ghost predicate TakenFrom(before: seq<Row>, cell: int, n: int, after: seq<Row>) {
    Find(before, cell) < |before| && after == Taken(before, Find(before, cell), n)
  }

  lemma TakeKeepsSafe(rows: seq<Row>, top: int, i: int, n: nat)
    requires Safe(rows, top) && 0 <= i < |rows| && n <= rows[i].stack.num
    ensures Safe(Taken(rows, i, n), top) && Find(rows, rows[i].cell) == i
    ensures Taken(rows, i, n) == if rows[i].stack.num == n then DeleteCell(rows, rows[i].cell)
                                 else SetNum(rows, rows[i].cell, rows[i].stack.num - n)
  {
    FindRow(rows, i);
    if rows[i].stack.num == n {
      DeleteOneRow(rows, i);
      RemoveKeepsSafe(rows, i, top);
    } else {
      SetNumOneRow(rows, i, rows[i].stack.num - n);
    }
  }

  /** Taking units takes exactly those units, of that item only. */
  lemma TakenExactly(before: seq<Row>, cell: int, n: int, after: seq<Row>, itemID: int)
    requires TakenFrom(before, cell, n, after)
    ensures Units(after, itemID, false) == Units(before, itemID, false) -
      if before[Find(before, cell)].stack.itemID == itemID then n else 0
  {
    var i := Find(before, cell);
    if before[i].stack.num == n {
      UnitsRemoved(before, i, itemID, false);
    } else {
      UnitsReplaced(before, i, WithNum(before[i], before[i].stack.num - n), itemID, false);
    }
  }

  /** Two cells trade what they hold; other cells keep theirs. */
  function Swapped(rows: seq<Row>, cell1: int, cell2: int): seq<Row> {
    seq(|rows|, i requires 0 <= i < |rows| =>
      if rows[i].cell == cell1 then rows[i].(cell := cell2)
      else if rows[i].cell == cell2 then rows[i].(cell := cell1)
      else rows[i])
  }

  lemma SwapMoves(rows: seq<Row>, cell1: int, cell2: int)
    requires !Occupied(rows, cell2)
    ensures Recell(rows, cell1, cell2) == Swapped(rows, cell1, cell2)
  {
  }

  /** The detour loses nothing: the cell aside is free, and trading a cell with itself is harmless. */
  lemma SwapTrades(rows: seq<Row>, top: int, cell1: int, cell2: int)
    requires Safe(rows, top) && top <= ASIDE && Occupied(rows, cell1) && Occupied(rows, cell2)
    ensures Recell(Recell(Recell(rows, cell1, cell1 + ASIDE), cell2, cell1), cell1 + ASIDE, cell2) ==
      Swapped(rows, cell1, cell2)
  {
  }

  /** A swap leaves the bag safe exactly when its destination is a cell of the bag: the service
      does not check that. */
  lemma SwapIsSafeIff(rows: seq<Row>, top: int, cell1: int, cell2: int)
    requires Safe(rows, top) && Occupied(rows, cell1)
    ensures Safe(Swapped(rows, cell1, cell2), top) <==> 1 <= cell2 <= top
  {
    var i := Find(rows, cell1);
    assert Swapped(rows, cell1, cell2)[i].cell == cell2;
    if 1 <= cell2 <= top {
      SwapKeepsDistinct(rows, cell1, cell2);
    }
  }

  lemma SwapKeepsDistinct(rows: seq<Row>, cell1: int, cell2: int)
    requires DistinctCells(rows)
    ensures DistinctCells(Swapped(rows, cell1, cell2))
  {
  }

  lemma SafeFits(rows: seq<Row>, top: int)
    requires Safe(rows, top) && top >= 0
    ensures |rows| <= top
  {
    if |rows| > top {
      CellsRepeat(rows, top);
    }
  }

  /** A bag never holds more stacks than it has cells. */
  lemma {:induction false} CellsRepeat(rows: seq<Row>, top: int)
    requires DistinctCells(rows) && top >= 0
    requires forall i :: 0 <= i < |rows| ==> 1 <= rows[i].cell <= top
    ensures |rows| <= top
    decreases top
  {
    var first := if rows == [] then 0 else rows[0].cell;
    if top == 0 {
    } else if Occupied(rows, top) {
      var i := Find(rows, top);
      var rest := rows[..i] + rows[i + 1..];
      assert forall k :: 0 <= k < |rest| ==> rest[k] == rows[if k < i then k else k + 1];
      CellsRepeat(rest, top - 1);
    } else {
      NotOccupied(rows, top);
      CellsRepeat(rows, top - 1);
    }
  }

  lemma RenumberedIsSafe(before: seq<Row>, after: seq<Row>, top: int)
    requires Safe(before, top) && Renumbered(before, after) && |before| <= top
    ensures Safe(after, top)
  {
    RenumberedIsDistinct(before, after);
  }

  lemma SortKeepsUnits(stackable: set<int>, top: int, before: seq<Row>, after: seq<Row>)
    requires Sorted(stackable, top, before, after)
    ensures SameUnits(before, after)
  {
    var mid :| Safe(mid, top) && OnlyNumsOfOpen(stackable, before, mid) && SameUnits(before, mid) &&
      Compact(stackable, mid) && LeastKeepsRest(stackable, before, mid) && Renumbered(mid, after);
    RenumberedKeeps(stackable, mid, after);
  }

  /** What a sort promises in the end: the same units of every item, at most one open stack of each,
      in the least number of stacks, in cells 1 to k. */
  lemma SortConserves(stackable: set<int>, top: int, before: seq<Row>, after: seq<Row>, itemID: int)
    requires Safe(before, top) && top >= 0 && Sorted(stackable, top, before, after)
    ensures SameUnits(before, after) && Compact(stackable, after)
    ensures exists mid :: LeastKeepsRest(stackable, before, mid) && Renumbered(mid, after)
    ensures itemID in stackable ==>
      CountLoose(after, itemID) == CeilDiv(Units(before, itemID, true), TOPSTACK_NUM)
    ensures forall c :: 1 <= c <= |after| <==> Occupied(after, c)
  {
    var mid :| Safe(mid, top) && OnlyNumsOfOpen(stackable, before, mid) && SameUnits(before, mid) &&
      Compact(stackable, mid) && LeastKeepsRest(stackable, before, mid) && Renumbered(mid, after);
    SafeFits(mid, top);
    RenumberedIsSafe(mid, after, top);
    RenumberedKeeps(stackable, mid, after);
    if itemID in stackable {
      CompactIsMinimal(stackable, after, top, itemID);
    }
  }

  lemma RenumberedKeeps(stackable: set<int>, mid: seq<Row>, after: seq<Row>)
    requires Renumbered(mid, after) && Compact(stackable, mid)
    ensures SameUnits(mid, after) && Compact(stackable, after)
    ensures forall c :: 1 <= c <= |after| <==> Occupied(after, c)
  {
    forall id, loose
      ensures Units(after, id, loose) == Units(mid, id, loose)
    {
      UnitsOfSameStacks(mid, after, id, loose);
    }
  }

  lemma {:induction false} UnitsOfSameStacks(a: seq<Row>, b: seq<Row>, itemID: int, loose: bool)
    requires |a| == |b| && forall i :: 0 <= i < |a| ==> a[i].stack == b[i].stack
    ensures Units(a, itemID, loose) == Units(b, itemID, loose)
  {
    if a != [] {
      UnitsOfSameStacks(a[1..], b[1..], itemID, loose);
    }
  }
}
