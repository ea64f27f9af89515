/** Finding free cells in a bag: IfhascellIndex, Ifhassomany and GetEmtycellNum. */
module FreeCells {

  /** What an ascending query over a proper bag returns: distinct cells of 1..top, in order. */
  predicate Ascending(cells: seq<int>, top: int) {
    && (forall i :: 0 <= i < |cells| ==> 1 <= cells[i] <= top)
    && forall i, j :: 0 <= i < j < |cells| ==> cells[i] < cells[j]
  }

  /** The free cells of 1..upTo, in increasing order. */
  function FreeUpTo(cells: seq<int>, upTo: int): seq<int>
    decreases upTo
  {
    if upTo <= 0 then []
    else FreeUpTo(cells, upTo - 1) + if upTo in cells then [] else [upTo]
  }

  /** That list holds exactly the free cells, strictly increasing. */
  lemma {:induction false} FreeUpToIsExact(cells: seq<int>, upTo: int)
    ensures forall c :: c in FreeUpTo(cells, upTo) <==> 1 <= c <= upTo && c !in cells
    ensures forall i, j :: 0 <= i < j < |FreeUpTo(cells, upTo)| ==>
      FreeUpTo(cells, upTo)[i] < FreeUpTo(cells, upTo)[j]
    decreases upTo
  {
    if upTo > 0 {
      FreeUpToIsExact(cells, upTo - 1);
      var before := FreeUpTo(cells, upTo - 1);
      assert forall i :: 0 <= i < |before| ==> before[i] in before;
    }
  }

  lemma {:induction false} FreeUpToGrows(cells: seq<int>, a: int, b: int)
    requires a <= b
    ensures FreeUpTo(cells, a) <= FreeUpTo(cells, b)
    decreases b - a
  {
    if a < b {
      FreeUpToGrows(cells, a, b - 1);
    }
  }

  /** Occupied and free cells add up to the size of the bag. */
  lemma {:induction false} FreeCount(cells: seq<int>, top: int)
    requires Ascending(cells, top) && top >= 0
    ensures |FreeUpTo(cells, top)| == top - |cells|
    decreases top
  {
    var last := if cells == [] then 0 else cells[|cells| - 1];
    if top > 0 {
      if last == top {
        var shorter := cells[..|cells| - 1];
        assert cells == shorter + [top];
        FreeCount(shorter, top - 1);
        SameBelow(cells, shorter, top - 1);
      } else {
        assert top !in cells;
        FreeCount(cells, top - 1);
      }
    }
  }

  lemma {:induction false} SameBelow(a: seq<int>, b: seq<int>, upTo: int)
    requires forall c :: c <= upTo ==> (c in a <==> c in b)
    ensures FreeUpTo(a, upTo) == FreeUpTo(b, upTo)
    decreases upTo
  {
    if upTo > 0 {
      SameBelow(a, b, upTo - 1);
    }
  }

  /** No cell between two neighbours of an ascending list is in it. */
  lemma NotBetween(cells: seq<int>, top: int, k: int, c: int)
    requires Ascending(cells, top) && 0 <= k <= |cells|
    requires (if k == 0 then 0 else cells[k - 1]) < c && (k < |cells| ==> c < cells[k])
    ensures c !in cells
  {
    forall i | 0 <= i < |cells|
      ensures cells[i] != c
    {
      if i < k {
        assert cells[i] <= cells[k - 1];
      } else {
        assert cells[k] <= cells[i];
      }
    }
  }

  /** Ifhassomany: room for num items. The cells are the rows of the ordered query. */
  method Ifhassomany(cells: seq<int>, top: int, want: nat) returns (ret: int, cell: seq<int>)
    requires Ascending(cells, top) && top >= 0
    ensures ret == if want == 0 || |cells| + want <= top then 1 else 0
    ensures ret == 1 ==> want <= |FreeUpTo(cells, top)| && cell == FreeUpTo(cells, top)[..want]
    ensures ret == 0 ==> cell == []
  {
    FreeCount(cells, top);
    cell := [];
    if want == 0 {
      return 1, cell;
    }
    if want + |cells| > top {
      return 0, cell;
    }
    var num := want;
    var countInt := 0;
    var k := 0;
    while k < |cells|
      invariant 0 <= k <= |cells| && num > 0
      invariant countInt == if k == 0 then 0 else cells[k - 1]
      invariant cell == FreeUpTo(cells, countInt) && |cell| + num == want
    {
      var countIndex := cells[k];
      while countIndex > countInt + 1
        invariant (if k == 0 then 0 else cells[k - 1]) <= countInt < countIndex
        invariant cell == FreeUpTo(cells, countInt) && |cell| + num == want && num > 0
        decreases countIndex - countInt
      {
        countInt := countInt + 1;
        NotBetween(cells, top, k, countInt);
        cell := cell + [countInt];
        num := num - 1;
        if num == 0 {
          FreeUpToGrows(cells, countInt, top);
          return 1, cell;
        }
      }
      assert countIndex in cells;
      countInt := countIndex;
      k := k + 1;
    }
    while countInt < top && num != 0
      invariant (if |cells| == 0 then 0 else cells[|cells| - 1]) <= countInt <= top
      invariant cell == FreeUpTo(cells, countInt) && |cell| + num == want && num >= 0
      decreases top - countInt
    {
      countInt := countInt + 1;
      NotBetween(cells, top, |cells|, countInt);
      cell := cell + [countInt];
      num := num - 1;
    }
    FreeUpToGrows(cells, countInt, top);
    ret := if num == 0 then 1 else 0;
  }

  /** GetEmtycellNum: how many cells are free. */
  method GetEmtycellNum(cells: seq<int>, top: int) returns (n: int)
    requires Ascending(cells, top) && top >= 0
    ensures n == |FreeUpTo(cells, top)|
  {
    FreeCount(cells, top);
    if |cells| > 0 {
      if |cells| >= top {
        return 0;
      }
      return top - |cells|;
    }
    return top;
  }

  /** IfhascellIndex: one free cell, or 0. Its query asks for no order; the rows are taken in the
      order they come in. */
  method IfhascellIndex(cells: seq<int>, top: int) returns (cellIndex: int)
    requires top >= 0 && forall i :: 0 <= i < |cells| ==> cells[i] >= 0
    ensures Ascending(cells, top) ==>
      cellIndex == if FreeUpTo(cells, top) == [] then 0 else FreeUpTo(cells, top)[0]
    ensures cellIndex == if |cells| >= top then 0 else FirstGap(cells, 1, top)
    ensures BagCells(cells, top) && |cells| < top ==>
      forall m :: SmallestFree(cells, m) ==> (cellIndex !in cells <==> BeginsWith(cells, m - 1))
  {
    cellIndex := 0;
    if |cells| == 0 {
      cellIndex := 1;
    }
    if |cells| >= top {
      FullBag(cells, top);
      return 0;
    }
    var countIndex, countInt, k := 0, 1, 0;
    while k < |cells|
      invariant 0 <= k <= |cells|
      invariant countInt == countIndex + 1 && countIndex == if k > 0 then cells[k - 1] else 0
      invariant cellIndex == if |cells| == 0 then 1 else 0
      invariant Ascending(cells, top) ==> FreeUpTo(cells, countIndex) == []
      invariant FirstGap(cells, 1, top) == FirstGap(cells[k..], countInt, top)
    {
      countIndex := cells[k];
      assert cells[k..][1..] == cells[k + 1..];
      if countIndex > countInt {
        cellIndex := countInt;
        if Ascending(cells, top) {
          FirstFree(cells, top, k, countInt);
        }
        break;
      }
      assert countIndex in cells;
      k := k + 1;
      countInt := countIndex + 1;
    }
    if countIndex < top {
      if cellIndex == 0 {
        cellIndex := countIndex + 1;
      }
    }
    if Ascending(cells, top) && k == |cells| && countIndex < top {
      FirstFree(cells, top, k, countIndex + 1);
    }
    if BagCells(cells, top) && |cells| < top {
      forall m | SmallestFree(cells, m)
        ensures cellIndex !in cells <==> BeginsWith(cells, m - 1)
      {
        GapIsFreeIff(cells, top, m);
      }
    }
  }

  lemma FullBag(cells: seq<int>, top: int)
    requires |cells| >= top >= 0
    ensures Ascending(cells, top) ==> FreeUpTo(cells, top) == []
  {
    if Ascending(cells, top) {
      FreeCount(cells, top);
    }
  }

  /** With nothing free before it, the number after a row's predecessor is the first free cell. */
  lemma FirstFree(cells: seq<int>, top: int, k: int, next: int)
    requires Ascending(cells, top) && 0 <= k <= |cells| && 1 <= next <= top
    requires next == 1 + (if k == 0 then 0 else cells[k - 1]) && (k < |cells| ==> next < cells[k])
    requires FreeUpTo(cells, next - 1) == []
    ensures FreeUpTo(cells, top) != [] && FreeUpTo(cells, top)[0] == next
  {
    NotBetween(cells, top, k, next);
    FreeUpToGrows(cells, next, top);
  }

  /** The first number after a predecessor in the list that the list skips. */
  function FirstGap(cells: seq<int>, next: int, top: int): int {
    if cells == [] then (if next - 1 < top then next else 0)
    else if cells[0] > next then next
    else FirstGap(cells[1..], cells[0] + 1, top)
  }

  /** What any query over a proper bag returns: distinct cells of 1..top, in some order. */
  ghost predicate BagCells(cells: seq<int>, top: int) {
    && (forall i :: 0 <= i < |cells| ==> 1 <= cells[i] <= top)
    && forall i, j :: 0 <= i < j < |cells| ==> cells[i] != cells[j]
  }

  ghost predicate SmallestFree(cells: seq<int>, m: int) {
    1 <= m && m !in cells && forall c :: 1 <= c < m ==> c in cells
  }

  /** The rows begin with the cells 1, 2, ... n. */
  ghost predicate BeginsWith(cells: seq<int>, n: int) {
    0 <= n <= |cells| && forall i :: 0 <= i < n ==> cells[i] == i + 1
  }

  lemma InBeginning(cells: seq<int>, n: int, c: int)
    requires BeginsWith(cells, n) && 1 <= c <= n
    ensures cells[c - 1] == c
  {
  }

  /** The gap found comes right after the longest such beginning. */
  lemma {:induction false} GapAfterBeginning(cells: seq<int>, k: nat, top: int) returns (n: int)
    requires BagCells(cells, top) && |cells| < top && BeginsWith(cells, k)
    ensures BeginsWith(cells, n) && (n < |cells| ==> cells[n] > n + 1)
    ensures FirstGap(cells[k..], k + 1, top) == n + 1
    decreases |cells| - k
  {
    n := k;
    if k < |cells| && cells[k] <= k + 1 {
      if cells[k] <= k {
        InBeginning(cells, k, cells[k]);
        assert false;
      }
      assert cells[k..][1..] == cells[k + 1..];
      n := GapAfterBeginning(cells, k + 1, top);
    }
  }

  /** Whatever the order of the rows, a bag with room gets a cell number; that cell is free if and
      only if the rows begin with all the cells below the smallest free one, in order. */
  lemma GapIsFreeIff(cells: seq<int>, top: int, m: int)
    requires BagCells(cells, top) && |cells| < top && SmallestFree(cells, m)
    ensures 1 <= FirstGap(cells, 1, top) <= top
    ensures FirstGap(cells, 1, top) !in cells <==> BeginsWith(cells, m - 1)
    ensures FirstGap(cells, 1, top) == m <==> BeginsWith(cells, m - 1)
  {
    var n := GapAfterBeginning(cells, 0, top);
    assert cells[0..] == cells;
    if m <= n {
      InBeginning(cells, n, m);
      assert false;
    }
    if BeginsWith(cells, m - 1) {
      assert n >= m - 1;
    }
  }

  /** A bag whose rows come in another order can be told to use a cell that is taken. */
  lemma UnorderedRowsMislead()
    ensures BagCells([3, 1], 25) && SmallestFree([3, 1], 2) && !BeginsWith([3, 1], 1)
    ensures FirstGap([3, 1], 1, 25) == 1 && 1 in [3, 1]
  {
    var cells := [3, 1];
    assert cells[0] == 3 && cells[1] == 1;
    assert cells[1..] == [1];
  }

  /** The three agree: there is room for n items exactly when n cells are free, and the single cell
      is the first of the list. */
  method RoomAgrees(cells: seq<int>, top: int, n: nat) returns (ret: int, empty: int, index: int, cell: seq<int>)
    requires Ascending(cells, top) && top >= 0 && n >= 1
    ensures ret == 1 <==> empty >= n
    ensures index != 0 <==> empty >= 1
    ensures ret == 1 ==> |cell| == n && cell[0] == index
  {
    ret, cell := Ifhassomany(cells, top, n);
    empty := GetEmtycellNum(cells, top);
    index := IfhascellIndex(cells, top);
    FreeCount(cells, top);
    FreeUpToIsExact(cells, top);
    assert FreeUpTo(cells, top) != [] ==> FreeUpTo(cells, top)[0] in FreeUpTo(cells, top);
  }
}
