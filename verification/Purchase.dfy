/** What a purchase puts into the bag and takes from the purse. */
module Purchase {
  import opened BagTable
  import opened FreeCells
  import opened BagSort

  /** The columns of the Item table that a purchase reads. */
  datatype Item = Item(itemID: int, itemType: int, cellType: int, isStack: int, buyType: int, price: nat)

  /** Items of this type get an entity of their own for each unit. */
  const ENTITY_TYPE := 2

  datatype Purse = Purse(money: nat, bindMoney: nat, gold: nat)

  predicate CanPay(purse: Purse, buyType: int, cost: nat) {
    if buyType == 3 then purse.gold >= cost
    else if buyType == 1 || buyType == 2 then purse.money + purse.bindMoney >= cost
    else true
  }

  function Paid(purse: Purse, buyType: int, cost: nat): Purse
    requires CanPay(purse, buyType, cost)
  {
    if buyType == 3 then purse.(gold := purse.gold - cost)
    else if buyType == 1 || buyType == 2 then
      if purse.bindMoney >= cost then purse.(bindMoney := purse.bindMoney - cost)
      else Purse(purse.money + purse.bindMoney - cost, 0, purse.gold)
    else purse
  }

  /** A purchase costs exactly its price, in gold or in money. No balance grows, and free money is only
      touched when the bound money is used up. */
  lemma PaidExactly(purse: Purse, buyType: int, cost: nat)
    requires CanPay(purse, buyType, cost) && 1 <= buyType <= 3
    ensures var p := Paid(purse, buyType, cost);
      && purse.gold - p.gold == (if buyType == 3 then cost else 0)
      && (purse.money + purse.bindMoney) - (p.money + p.bindMoney) == (if buyType == 3 then 0 else cost)
      && p.money <= purse.money && p.bindMoney <= purse.bindMoney
      && (p.money < purse.money ==> p.bindMoney == 0)
  {
  }

  /** The stacks num units are put into: full ones first. */
  function SplitInto(num: nat): seq<int> {
    if num == 0 then []
    else if num <= TOPSTACK_NUM then [num]
    else [TOPSTACK_NUM] + SplitInto(num - TOPSTACK_NUM)
  }

  function SumOf(s: seq<int>): int {
    if s == [] then 0 else s[0] + SumOf(s[1..])
  }

  /** They hold exactly num units, in as few stacks as possible, the rest in the last one. */
  lemma {:induction false} SplitIsExact(num: nat)
    ensures SumOf(SplitInto(num)) == num
    ensures |SplitInto(num)| == CeilDiv(num, TOPSTACK_NUM)
    ensures forall i :: 0 <= i < |SplitInto(num)| ==> 1 <= SplitInto(num)[i] <= TOPSTACK_NUM
    ensures forall i :: 0 <= i < |SplitInto(num)| - 1 ==> SplitInto(num)[i] == TOPSTACK_NUM
  {
    if num > TOPSTACK_NUM {
      SplitIsExact(num - TOPSTACK_NUM);
    }
  }

  /** What the loop's count is, counting the stacks still to be filled. */
  function CountFor(num: nat, numcell: int): int {
    if numcell == 1 then if num % TOPSTACK_NUM == 0 then TOPSTACK_NUM else num % TOPSTACK_NUM
    else TOPSTACK_NUM
  }

  lemma {:induction false} CountForIsSplit(num: nat, i: int)
    requires 0 <= i < |SplitInto(num)|
    ensures SplitInto(num)[i] == CountFor(num, |SplitInto(num)| - i)
  {
    SplitIsExact(num);
    if num > TOPSTACK_NUM {
      SplitIsExact(num - TOPSTACK_NUM);
      assert (num - TOPSTACK_NUM) % TOPSTACK_NUM == num % TOPSTACK_NUM;
      if i > 0 {
        CountForIsSplit(num - TOPSTACK_NUM, i - 1);
      }
    }
  }

  function ByStacks(item: Item): bool {
    item.itemType != ENTITY_TYPE && item.isStack != 0
  }

  function StackSizes(item: Item, num: nat): seq<int> {
    if ByStacks(item) then SplitInto(num) else seq(num, _ => 1)
  }

  function CellsNeeded(item: Item, num: nat): int {
    if ByStacks(item) then CeilDiv(num, TOPSTACK_NUM) else num
  }

  /** The new rows, one for each stack; entities are numbered on from nextEntity. */
  function NewRows(item: Item, cells: seq<int>, sizes: seq<int>, nextEntity: int): seq<Row>
    requires |cells| == |sizes|
  {
    seq(|cells|, i requires 0 <= i < |cells| => NewRow(item, cells[i], sizes[i], nextEntity + i))
  }

  function NewRow(item: Item, cell: int, size: int, entity: int): Row {
    Row(cell, Stack(item.cellType, item.itemType, item.itemID,
                    if item.itemType == ENTITY_TYPE then entity else 0, size))
  }

  lemma {:induction false} SumOfOnes(n: nat)
    ensures SumOf(seq(n, _ => 1)) == n
  {
    if n > 0 {
      assert seq(n, _ => 1)[1..] == seq(n - 1, _ => 1);
      SumOfOnes(n - 1);
    }
  }

  lemma SizesAreExact(item: Item, num: nat)
    ensures SumOf(StackSizes(item, num)) == num && |StackSizes(item, num)| == CellsNeeded(item, num)
    ensures forall i :: 0 <= i < |StackSizes(item, num)| ==> 1 <= StackSizes(item, num)[i] <= TOPSTACK_NUM
  {
    if ByStacks(item) {
      SplitIsExact(num);
    } else {
      SumOfOnes(num);
    }
  }

  lemma {:induction false} NewUnits(item: Item, cells: seq<int>, sizes: seq<int>, nextEntity: int, itemID: int)
    requires |cells| == |sizes|
    ensures Units(NewRows(item, cells, sizes, nextEntity), itemID, false) ==
      if itemID == item.itemID then SumOf(sizes) else 0
    decreases |cells|
  {
    if cells != [] {
      var rows := NewRows(item, cells, sizes, nextEntity);
      assert rows[1..] == NewRows(item, cells[1..], sizes[1..], nextEntity + 1);
      NewUnits(item, cells[1..], sizes[1..], nextEntity + 1, itemID);
    }
  }

  /** The entities that are made for it. */
  function EntitiesMade(item: Item, num: nat): nat {
    if item.itemType == ENTITY_TYPE then num else 0
  }

  function CellsOf(rows: seq<Row>): seq<int> {
    seq(|rows|, i requires 0 <= i < |rows| => rows[i].cell)
  }

  /** The bag after a purchase: the free cells are filled from the lowest on. */
  function Bought(bag: seq<Row>, top: int, item: Item, num: nat, nextEntity: int): seq<Row>
    requires CellsNeeded(item, num) <= |FreeUpTo(CellsOf(bag), top)|
  {
    SizesAreExact(item, num);
    bag + NewRows(item, FreeUpTo(CellsOf(bag), top)[..CellsNeeded(item, num)], StackSizes(item, num), nextEntity)
  }

  lemma SafeTogether(bag: seq<Row>, more: seq<Row>, top: int)
    requires Safe(bag, top) && Safe(more, top)
    requires forall i, j :: 0 <= i < |bag| && 0 <= j < |more| ==> bag[i].cell != more[j].cell
    ensures Safe(bag + more, top)
  {
  }

  lemma NewRowsAreSafe(item: Item, cells: seq<int>, sizes: seq<int>, nextEntity: int, top: int)
    requires |cells| == |sizes| && Ascending(cells, top)
    requires forall i :: 0 <= i < |sizes| ==> 1 <= sizes[i] <= TOPSTACK_NUM
    ensures Safe(NewRows(item, cells, sizes, nextEntity), top)
  {
  }

  lemma FreeCellsAreFree(bag: seq<Row>, top: int, n: nat)
    requires n <= |FreeUpTo(CellsOf(bag), top)|
    ensures var cells := FreeUpTo(CellsOf(bag), top)[..n];
      Ascending(cells, top) && forall i, j :: 0 <= i < |bag| && 0 <= j < n ==> bag[i].cell != cells[j]
  {
    var free := FreeUpTo(CellsOf(bag), top);
    FreeUpToIsExact(CellsOf(bag), top);
    forall j | 0 <= j < n
      ensures 1 <= free[j] <= top && free[j] !in CellsOf(bag)
    {
      assert free[j] in free;
    }
    forall i | 0 <= i < |bag|
      ensures bag[i].cell in CellsOf(bag)
    {
      assert CellsOf(bag)[i] == bag[i].cell;
    }
  }

  /** Every new stack is of the item bought, with the item's own columns. */
  lemma BoughtStacks(bag: seq<Row>, top: int, item: Item, num: nat, nextEntity: int, i: int)
    requires CellsNeeded(item, num) <= |FreeUpTo(CellsOf(bag), top)|
    requires |bag| <= i < |Bought(bag, top, item, num, nextEntity)|
    ensures var stack := Bought(bag, top, item, num, nextEntity)[i].stack;
      && stack.itemID == item.itemID && stack.itemType == item.itemType && stack.cellType == item.cellType
      && (stack.entityID != 0 ==> item.itemType == ENTITY_TYPE) && 1 <= stack.num <= TOPSTACK_NUM
  {
    SizesAreExact(item, num);
  }

  /** A purchase adds exactly num units of its item and nothing of any other, leaves all rows in
      place, and keeps the bag safe. */
  lemma BoughtExactly(bag: seq<Row>, top: int, item: Item, num: nat, nextEntity: int, itemID: int)
    requires Safe(bag, top) && CellsNeeded(item, num) <= |FreeUpTo(CellsOf(bag), top)|
    ensures var after := Bought(bag, top, item, num, nextEntity);
      && Units(after, itemID, false) == Units(bag, itemID, false) + (if itemID == item.itemID then num else 0)
      && bag <= after && |after| == |bag| + CellsNeeded(item, num)
      && Safe(after, top)
  {
    SizesAreExact(item, num);
    var cells := FreeUpTo(CellsOf(bag), top)[..CellsNeeded(item, num)];
    var more := NewRows(item, cells, StackSizes(item, num), nextEntity);
    UnitsConcat(bag, more, itemID, false);
    NewUnits(item, cells, StackSizes(item, num), nextEntity, itemID);
    FreeCellsAreFree(bag, top, CellsNeeded(item, num));
    NewRowsAreSafe(item, cells, StackSizes(item, num), nextEntity, top);
    SafeTogether(bag, more, top);
  }
}
