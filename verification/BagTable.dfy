/** The rows of the Bag and StoreBag tables that belong to one role, and the statements the bag
    service issues on them. A statement acts on every row that its condition selects. */
module BagTable {

  const TOPSTACK_NUM := 99
  /** Cells from here on are only used while rows are being moved. */
  const ASIDE := 1000

  datatype Stack = Stack(cellType: int, itemType: int, itemID: int, entityID: int, num: int)
  datatype Row = Row(cell: int, stack: Stack)

  // -------- statements

  function WithNum(r: Row, num: int): Row {
    r.(stack := r.stack.(num := num))
  }

  /** update ... set Num = num where CellIndex = cell */
  function SetNum(rows: seq<Row>, cell: int, num: int): seq<Row> {
    seq(|rows|, i requires 0 <= i < |rows| => if rows[i].cell == cell then WithNum(rows[i], num) else rows[i])
  }

  /** update ... set all columns but the cell where CellIndex = cell */
  function SetStack(rows: seq<Row>, cell: int, stack: Stack): seq<Row> {
    seq(|rows|, i requires 0 <= i < |rows| => if rows[i].cell == cell then Row(cell, stack) else rows[i])
  }

  /** update ... set CellIndex = to where CellIndex = from */
  function Recell(rows: seq<Row>, from: int, to: int): seq<Row> {
    seq(|rows|, i requires 0 <= i < |rows| => if rows[i].cell == from then rows[i].(cell := to) else rows[i])
  }

  /** update ... set CellIndex = CellIndex + ASIDE */
  function AllAside(rows: seq<Row>): seq<Row> {
    seq(|rows|, i requires 0 <= i < |rows| => rows[i].(cell := rows[i].cell + ASIDE))
  }

  /** delete ... where CellIndex = cell */
  function DeleteCell(rows: seq<Row>, cell: int): seq<Row> {
    if rows == [] then []
    else (if rows[0].cell == cell then [] else [rows[0]]) + DeleteCell(rows[1..], cell)
  }

  /** The index of the first row of a cell, or the number of rows. */
  function Find(rows: seq<Row>, cell: int): (i: nat)
    ensures i <= |rows| && (i < |rows| ==> rows[i].cell == cell)
    ensures forall j :: 0 <= j < i ==> rows[j].cell != cell
  {
    if rows == [] then 0 else if rows[0].cell == cell then 0 else 1 + Find(rows[1..], cell)
  }

  predicate Occupied(rows: seq<Row>, cell: int) {
    Find(rows, cell) < |rows|
  }

  // -------- what a bag must keep

  ghost predicate DistinctCells(rows: seq<Row>) {
    forall i, j :: 0 <= i < j < |rows| ==> rows[i].cell != rows[j].cell
  }

  /** No two stacks share a cell, cells are 1..top, and stacks are 1..TOPSTACK_NUM. */
  ghost predicate Safe(rows: seq<Row>, top: int) {
    && DistinctCells(rows)
    && forall i :: 0 <= i < |rows| ==> 1 <= rows[i].cell <= top && 1 <= rows[i].stack.num <= TOPSTACK_NUM
  }

  /** What is in the table, wherever it lies. */
  function Contents(rows: seq<Row>): multiset<Stack> {
    multiset(Stacks(rows))
  }

  function Stacks(rows: seq<Row>): seq<Stack> {
    seq(|rows|, i requires 0 <= i < |rows| => rows[i].stack)
  }

  /** All stacks of an item, or only those that need no entity. */
  predicate Holds(itemID: int, loose: bool, stack: Stack) {
    stack.itemID == itemID && (loose ==> stack.entityID == 0)
  }

  /** How many units of an item there are. */
  function Units(rows: seq<Row>, itemID: int, loose: bool): int {
    if rows == [] then 0
    else (if Holds(itemID, loose, rows[0].stack) then rows[0].stack.num else 0) + Units(rows[1..], itemID, loose)
  }

  // -------- lemmas about the statements

  lemma {:induction false} UnitsConcat(a: seq<Row>, b: seq<Row>, itemID: int, loose: bool)
    ensures Units(a + b, itemID, loose) == Units(a, itemID, loose) + Units(b, itemID, loose)
  {
    if a == [] {
      assert a + b == b;
    } else {
      assert (a + b)[1..] == a[1..] + b;
      UnitsConcat(a[1..], b, itemID, loose);
    }
  }

  lemma UnitsAt(rows: seq<Row>, i: int, itemID: int, loose: bool)
    requires 0 <= i < |rows|
    ensures Units(rows, itemID, loose) == Units(rows[..i], itemID, loose) + Units(rows[i + 1..], itemID, loose) +
      if Holds(itemID, loose, rows[i].stack) then rows[i].stack.num else 0
  {
    UnitsConcat(rows[..i], rows[i..], itemID, loose);
    assert rows == rows[..i] + rows[i..];
    assert rows[i..][1..] == rows[i + 1..];
  }

  lemma ContentsReplaced(rows: seq<Row>, i: int, r: Row)
    requires 0 <= i < |rows|
    ensures Contents(rows[i := r]) == Contents(rows) - multiset{rows[i].stack} + multiset{r.stack}
  {
    assert Stacks(rows[i := r]) == Stacks(rows)[i := r.stack];
  }

  lemma ContentsRemoved(rows: seq<Row>, i: int)
    requires 0 <= i < |rows|
    ensures Contents(rows[..i] + rows[i + 1..]) == Contents(rows) - multiset{rows[i].stack}
  {
    var s := Stacks(rows);
    assert s == s[..i] + [s[i]] + s[i + 1..];
    assert Stacks(rows[..i] + rows[i + 1..]) == s[..i] + s[i + 1..];
  }

  lemma UnitsReplaced(rows: seq<Row>, i: int, r: Row, itemID: int, loose: bool)
    requires 0 <= i < |rows| && r == WithNum(rows[i], r.stack.num)
    ensures Units(rows[i := r], itemID, loose) ==
      Units(rows, itemID, loose) + if Holds(itemID, loose, r.stack) then r.stack.num - rows[i].stack.num else 0
  {
    UnitsAt(rows, i, itemID, loose);
    UnitsAt(rows[i := r], i, itemID, loose);
    assert rows[i := r][..i] == rows[..i] && rows[i := r][i + 1..] == rows[i + 1..];
  }

  lemma UnitsRemoved(rows: seq<Row>, i: int, itemID: int, loose: bool)
    requires 0 <= i < |rows|
    ensures Units(rows[..i] + rows[i + 1..], itemID, loose) ==
      Units(rows, itemID, loose) - if Holds(itemID, loose, rows[i].stack) then rows[i].stack.num else 0
  {
    UnitsAt(rows, i, itemID, loose);
    UnitsConcat(rows[..i], rows[i + 1..], itemID, loose);
  }

  // In a table with distinct cells, a statement on the cell of row i acts on row i alone.

  lemma FindRow(rows: seq<Row>, i: int)
    requires DistinctCells(rows) && 0 <= i < |rows|
    ensures Find(rows, rows[i].cell) == i
  {
  }

  lemma SetNumOneRow(rows: seq<Row>, i: int, num: int)
    requires DistinctCells(rows) && 0 <= i < |rows|
    ensures SetNum(rows, rows[i].cell, num) == rows[i := WithNum(rows[i], num)]
  {
    assert forall j :: 0 <= j < |rows| && j != i ==> rows[j].cell != rows[i].cell;
  }

  lemma SetStackOneRow(rows: seq<Row>, i: int, stack: Stack)
    requires DistinctCells(rows) && 0 <= i < |rows|
    ensures SetStack(rows, rows[i].cell, stack) == rows[i := Row(rows[i].cell, stack)]
  {
    assert forall j :: 0 <= j < |rows| && j != i ==> rows[j].cell != rows[i].cell;
  }

  lemma {:induction false} DeleteAbsent(rows: seq<Row>, cell: int)
    requires forall i :: 0 <= i < |rows| ==> rows[i].cell != cell
    ensures DeleteCell(rows, cell) == rows
  {
    if rows != [] {
      DeleteAbsent(rows[1..], cell);
    }
  }

  lemma {:induction false} DeleteOneRow(rows: seq<Row>, i: int)
    requires DistinctCells(rows) && 0 <= i < |rows|
    ensures DeleteCell(rows, rows[i].cell) == rows[..i] + rows[i + 1..]
  {
    if i == 0 {
      DeleteAbsent(rows[1..], rows[0].cell);
    } else {
      assert rows[1..][i - 1] == rows[i];
      DeleteOneRow(rows[1..], i - 1);
      assert rows[..i] == [rows[0]] + rows[1..][..i - 1];
      assert rows[1..][i..] == rows[i + 1..];
    }
  }

  lemma ReplacedMember(rows: seq<Row>, q: int, x: Row, r: Row)
    requires DistinctCells(rows) && 0 <= q < |rows|
    ensures r in rows[q := x] <==> r == x || (r in rows && r != rows[q])
  {
    if r in rows && r != rows[q] {
      var i :| 0 <= i < |rows| && rows[i] == r;
      assert rows[q := x][i] == r;
    }
    assert rows[q := x][q] == x;
  }

  lemma RemovedMember(rows: seq<Row>, q: int, r: Row)
    requires DistinctCells(rows) && 0 <= q < |rows|
    ensures r in rows[..q] + rows[q + 1..] <==> r in rows && r != rows[q]
  {
    var rest := rows[..q] + rows[q + 1..];
    if r in rows && r != rows[q] {
      var i :| 0 <= i < |rows| && rows[i] == r;
      assert rest[if i < q then i else i - 1] == r;
    }
  }

  lemma {:induction false} OnceEach(rows: seq<Row>, r: Row)
    requires DistinctCells(rows)
    ensures multiset(rows)[r] <= 1
  {
    if rows != [] {
      OnceEach(rows[1..], r);
      assert rows == [rows[0]] + rows[1..];
      if r == rows[0] {
        assert forall i :: 0 <= i < |rows[1..]| ==> rows[1..][i] == rows[i + 1];
        assert r !in rows[1..];
      }
    }
  }

  /** The rows of a query have distinct cells because those of the table have. */
  lemma SameRowsDistinct(a: seq<Row>, b: seq<Row>)
    requires DistinctCells(a) && multiset(a) == multiset(b)
    ensures DistinctCells(b) && |a| == |b| && forall r :: r in a <==> r in b
  {
    forall r
      ensures r in a <==> r in b
    {
      assert (r in a <==> r in multiset(a)) && (r in b <==> r in multiset(b));
    }
    assert |multiset(a)| == |multiset(b)|;
    forall i, j | 0 <= i < j < |b|
      ensures b[i].cell != b[j].cell
    {
      assert b[i] in a && b[j] in a;
      OnceEach(a, b[i]);
      assert b == b[..j] + b[j..];
      assert b[i] in b[..j] && b[j] in b[j..];
      assert multiset(b)[b[i]] == multiset(b[..j])[b[i]] + multiset(b[j..])[b[i]];
    }
  }

  lemma NotOccupied(rows: seq<Row>, cell: int)
    ensures Occupied(rows, cell) <==> exists i :: 0 <= i < |rows| && rows[i].cell == cell
  {
    if Occupied(rows, cell) {
      assert rows[Find(rows, cell)].cell == cell;
    }
  }

  // -------- queries

  /** The order of a query's rows: by a first key, then by a second one; ties come as they please. */
  predicate InOrder(key1: Row -> int, key2: Row -> int, a: Row, b: Row) {
    key1(a) < key1(b) || (key1(a) == key1(b) && key2(a) <= key2(b))
  }

  ghost predicate Ordered(key1: Row -> int, key2: Row -> int, rows: seq<Row>) {
    forall i, j :: 0 <= i < j < |rows| ==> InOrder(key1, key2, rows[i], rows[j])
  }

  /** select ... order by key1, key2. Callers rely on no more than the order and the rows. */
  method QueryOrdered(rows: seq<Row>, key1: Row -> int, key2: Row -> int) returns (cursor: seq<Row>)
    ensures Ordered(key1, key2, cursor) && multiset(cursor) == multiset(rows)
  {
    cursor := [];
    var i := 0;
    while i < |rows|
      invariant 0 <= i <= |rows|
      invariant Ordered(key1, key2, cursor) && multiset(cursor) == multiset(rows[..i])
    {
      assert rows[..i + 1] == rows[..i] + [rows[i]];
      cursor := FiledIn(cursor, rows[i], key1, key2);
      i := i + 1;
    }
    assert rows[..i] == rows;
  }

  method FiledIn(cursor: seq<Row>, r: Row, key1: Row -> int, key2: Row -> int) returns (cursor': seq<Row>)
    requires Ordered(key1, key2, cursor)
    ensures Ordered(key1, key2, cursor') && multiset(cursor') == multiset(cursor) + multiset{r}
  {
    var j := |cursor|;
    while j > 0 && !InOrder(key1, key2, cursor[j - 1], r)
      invariant 0 <= j <= |cursor|
      invariant forall k :: j <= k < |cursor| ==> InOrder(key1, key2, r, cursor[k])
    {
      j := j - 1;
    }
    assert cursor == cursor[..j] + cursor[j..];
    cursor' := cursor[..j] + [r] + cursor[j..];
    FiledInOrder(cursor, j, r, key1, key2);
  }

  lemma FiledInOrder(cursor: seq<Row>, j: int, r: Row, key1: Row -> int, key2: Row -> int)
    requires Ordered(key1, key2, cursor) && 0 <= j <= |cursor|
    requires j > 0 ==> InOrder(key1, key2, cursor[j - 1], r)
    requires forall k :: j <= k < |cursor| ==> InOrder(key1, key2, r, cursor[k])
    ensures Ordered(key1, key2, cursor[..j] + [r] + cursor[j..])
  {
    assert forall k :: 0 <= k < j ==> InOrder(key1, key2, cursor[k], r) by {
      forall k | 0 <= k < j
        ensures InOrder(key1, key2, cursor[k], r)
      {
        assert k < j - 1 ==> InOrder(key1, key2, cursor[k], cursor[j - 1]);
      }
    }
  }
}
