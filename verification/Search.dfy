/** The search loop of AStar: an open list, a closed list, and 10/14 step costs. */
module Search {
  import opened Grid

  /** f is the cost so far and g the cost so far plus the estimate, as the source names them. */
  datatype PosA = PosA(node: Pos, parent: Pos, f: int, g: int)

  datatype Outcome = Found | OffMap | NoWay | TooFar

  /** The neighbours in the order P1 to P8 of the source. */
  const NEIGHBOURS := [North, NorthEast, East, EastSouth, South, SouthWest, West, WestNorth]

  function StartEntry(start: Pos): PosA {
    PosA(start, start, 0, 0)
  }

  /** The entry that opens the neighbour of cur in direction d. */
  function Child(cur: PosA, d: Direct, end: Pos): PosA {
    var n := Step(cur.node, d);
    var f := StepCost(d) + cur.f;
    PosA(n, cur.node, f, f + 10 * Manhattan(n, end))
  }

  ghost predicate Listed(list: seq<PosA>, p: Pos) {
    exists i :: 0 <= i < |list| && list[i].node == p
  }

  ghost predicate Known(waiting: seq<PosA>, done: seq<PosA>, p: Pos) {
    Listed(waiting, p) || Listed(done, p)
  }

  ghost predicate DistinctNodes(list: seq<PosA>) {
    forall i, j :: 0 <= i < j < |list| ==> list[i].node != list[j].node
  }

  ghost predicate Apart(a: seq<PosA>, b: seq<PosA>) {
    forall i, j :: 0 <= i < |a| && 0 <= j < |b| ==> a[i].node != b[j].node
  }

  /** e was opened from some entry of the list. */
  ghost predicate Opened(list: seq<PosA>, e: PosA, end: Pos) {
    exists j, d :: 0 <= j < |list| && d != NoDirect && e == Child(list[j], d, end)
  }

  /** Every entry of the closed list but the first was opened from an earlier one: this is what
      makes the backward walk over the list find every parent. */
  ghost predicate ParentsPrecede(done: seq<PosA>, start: Pos, end: Pos) {
    && (done != [] ==> done[0] == StartEntry(start))
    && forall i :: 1 <= i < |done| ==> Opened(done[..i], done[i], end)
  }

  /** All walkable neighbours of closed cells have been seen. */
  ghost predicate Expanded(m: PkMap, waiting: seq<PosA>, done: seq<PosA>) {
    forall i, d :: 0 <= i < |done| && Walkable(m, Step(done[i].node, d)) ==>
      Known(waiting, done, Step(done[i].node, d))
  }

  ghost predicate OnGround(m: PkMap, start: Pos, list: seq<PosA>) {
    forall i :: 0 <= i < |list| ==> list[i].node == start || Walkable(m, list[i].node)
  }

  /** What every iteration of the search keeps. */
  ghost predicate SearchInv(m: PkMap, start: Pos, end: Pos, waiting: seq<PosA>, done: seq<PosA>) {
    && DistinctNodes(waiting) && DistinctNodes(done) && Apart(waiting, done)
    && OnGround(m, start, waiting) && OnGround(m, start, done)
    && ParentsPrecede(done, start, end)
    && (done == [] ==> waiting == [StartEntry(start)])
    && (done != [] ==> forall i :: 0 <= i < |waiting| ==> Opened(done, waiting[i], end))
    && Expanded(m, waiting, done)
    && !Listed(done, end)
  }

  /** cur is the entry the selection scan settles on: the last one with the least g. */
  ghost predicate LastLeast(waiting: seq<PosA>, at: int, cur: PosA) {
    && 0 <= at < |waiting| && waiting[at] == cur
    && (forall i :: 0 <= i < |waiting| ==> cur.g <= waiting[i].g)
    && (forall i :: at < i < |waiting| ==> cur.g < waiting[i].g)
  }

  // -------- the steps of one iteration

  /** Flags the neighbours of cur that occur in the list. */
  method MarkKnown(list: seq<PosA>, cur: Pos, flags: array<bool>)
    requires flags.Length == |NEIGHBOURS|
    modifies flags
    ensures forall k :: 0 <= k < |NEIGHBOURS| ==>
      (flags[k] <==> old(flags[k]) || Listed(list, Step(cur, NEIGHBOURS[k])))
  {
    var i := 0;
    while i < |list|
      invariant 0 <= i <= |list|
      invariant forall k :: 0 <= k < |NEIGHBOURS| ==>
        (flags[k] <==> old(flags[k]) || Listed(list[..i], Step(cur, NEIGHBOURS[k])))
    {
      label before:
      forall k | 0 <= k < |NEIGHBOURS| && list[i].node == Step(cur, NEIGHBOURS[k]) {
        flags[k] := true;
      }
      forall k | 0 <= k < |NEIGHBOURS|
        ensures flags[k] <==> old(flags[k]) || Listed(list[..i + 1], Step(cur, NEIGHBOURS[k]))
      {
        ListedSnoc(list[..i], list[i], Step(cur, NEIGHBOURS[k]));
        assert list[..i + 1] == list[..i] + [list[i]];
      }
      i := i + 1;
    }
    assert list[..i] == list;
  }

  lemma ListedSnoc(list: seq<PosA>, e: PosA, p: Pos)
    ensures Listed(list + [e], p) <==> Listed(list, p) || e.node == p
  {
    var l := list + [e];
    if Listed(list, p) {
      var i :| 0 <= i < |list| && list[i].node == p;
      assert l[i].node == p;
    }
    if e.node == p {
      assert l[|list|].node == p;
    }
  }

  predicate Opens(m: PkMap, cur: PosA, flags: seq<bool>, k: int)
    requires |flags| == |NEIGHBOURS| && 0 <= k < |NEIGHBOURS|
  {
    !flags[k] && Walkable(m, Step(cur.node, NEIGHBOURS[k]))
  }

  /** The entries opened from cur: its unflagged walkable neighbours, in order. */
  function Opening(m: PkMap, end: Pos, cur: PosA, flags: seq<bool>, upTo: int): seq<PosA>
    requires |flags| == |NEIGHBOURS| && 0 <= upTo <= |NEIGHBOURS|
    decreases upTo
  {
    if upTo == 0 then []
    else
      Opening(m, end, cur, flags, upTo - 1) +
      if Opens(m, cur, flags, upTo - 1) then [Child(cur, NEIGHBOURS[upTo - 1], end)] else []
  }

  method OpenNeighbours(m: PkMap, end: Pos, cur: PosA, flags: array<bool>, waiting: seq<PosA>)
    returns (waiting': seq<PosA>)
    requires flags.Length == |NEIGHBOURS|
    ensures waiting' == waiting + Opening(m, end, cur, flags[..], |NEIGHBOURS|)
  {
    waiting' := waiting;
    var k := 0;
    while k < |NEIGHBOURS|
      invariant 0 <= k <= |NEIGHBOURS|
      invariant waiting' == waiting + Opening(m, end, cur, flags[..], k)
    {
      var n := Step(cur.node, NEIGHBOURS[k]);
      if !flags[k] && InBounds(n) && m[n.y][n.x] != 0 {
        waiting' := waiting' + [Child(cur, NEIGHBOURS[k], end)];
      }
      k := k + 1;
    }
  }

  /** Entry i of an opening is the child in some direction NEIGHBOURS[k] ... */
  lemma {:induction false} OpeningIsChild(m: PkMap, end: Pos, cur: PosA, flags: seq<bool>, upTo: int, i: int)
    returns (k: int)
    requires |flags| == |NEIGHBOURS| && 0 <= upTo <= |NEIGHBOURS|
    requires 0 <= i < |Opening(m, end, cur, flags, upTo)|
    ensures 0 <= k < upTo && Opens(m, cur, flags, k)
    ensures Opening(m, end, cur, flags, upTo)[i] == Child(cur, NEIGHBOURS[k], end)
    decreases upTo
  {
    if i < |Opening(m, end, cur, flags, upTo - 1)| {
      k := OpeningIsChild(m, end, cur, flags, upTo - 1, i);
    } else {
      k := upTo - 1;
    }
  }

  /** ... and every such child is an entry. */
  lemma {:induction false} ChildIsOpening(m: PkMap, end: Pos, cur: PosA, flags: seq<bool>, upTo: int, k: int)
    returns (i: int)
    requires |flags| == |NEIGHBOURS| && 0 <= k < upTo <= |NEIGHBOURS|
    requires Opens(m, cur, flags, k)
    ensures 0 <= i < |Opening(m, end, cur, flags, upTo)|
    ensures Opening(m, end, cur, flags, upTo)[i] == Child(cur, NEIGHBOURS[k], end)
    decreases upTo
  {
    if k < upTo - 1 {
      i := ChildIsOpening(m, end, cur, flags, upTo - 1, k);
    } else {
      i := |Opening(m, end, cur, flags, upTo - 1)|;
    }
  }

  lemma {:induction false} OpeningIsDistinct(m: PkMap, end: Pos, cur: PosA, flags: seq<bool>, upTo: int)
    requires |flags| == |NEIGHBOURS| && 0 <= upTo <= |NEIGHBOURS|
    ensures DistinctNodes(Opening(m, end, cur, flags, upTo))
    decreases upTo
  {
    if upTo > 0 {
      OpeningIsDistinct(m, end, cur, flags, upTo - 1);
      var before := Opening(m, end, cur, flags, upTo - 1);
      forall i | 0 <= i < |before|
        ensures before[i].node != Step(cur.node, NEIGHBOURS[upTo - 1])
      {
        var k := OpeningIsChild(m, end, cur, flags, upTo - 1, i);
        DirectOfStep(cur.node, NEIGHBOURS[k]);
        DirectOfStep(cur.node, NEIGHBOURS[upTo - 1]);
        NeighboursDiffer(k, upTo - 1);
      }
    }
  }

  lemma NeighboursDiffer(k: int, l: int)
    requires 0 <= k < l < |NEIGHBOURS|
    ensures NEIGHBOURS[k] != NEIGHBOURS[l]
  {
  }

  /** Moves the first waiting entry for the current cell to the end of the closed list. */
  method MoveToDone(cur: Pos, waiting: seq<PosA>, done: seq<PosA>)
    returns (waiting': seq<PosA>, done': seq<PosA>)
    ensures forall at :: 0 <= at < |waiting| && waiting[at].node == cur && !Listed(waiting[..at], cur) ==>
      waiting' == waiting[..at] + waiting[at + 1..] && done' == done + [waiting[at]]
    ensures !Listed(waiting, cur) ==> waiting' == waiting && done' == done
  {
    waiting', done' := waiting, done;
    var pos := 0;
    while pos < |waiting|
      invariant 0 <= pos <= |waiting|
      invariant !Listed(waiting[..pos], cur)
    {
      if waiting[pos].node == cur {
        assert forall at :: pos < at < |waiting| ==> waiting[..at][pos].node == cur;
        assert forall at :: 0 <= at < pos ==> waiting[..pos][at].node != cur;
        return waiting[..pos] + waiting[pos + 1..], done + [waiting[pos]];
      }
      ListedSnoc(waiting[..pos], waiting[pos], cur);
      assert waiting[..pos + 1] == waiting[..pos] + [waiting[pos]];
      pos := pos + 1;
    }
    assert waiting[..pos] == waiting;
  }

  method SelectNext(waiting: seq<PosA>) returns (cur: PosA, minLine: int, ghost at: int)
    requires waiting != []
    ensures LastLeast(waiting, at, cur) && minLine == cur.g
  {
    minLine := waiting[0].g;
    cur, at := waiting[0], 0;
    var pos := 0;
    while pos < |waiting|
      invariant 0 <= pos <= |waiting|
      invariant 0 <= at < |waiting| && (at < pos || at == 0) && waiting[at] == cur && minLine == cur.g
      invariant forall i :: 0 <= i < pos ==> cur.g <= waiting[i].g
      invariant forall i :: at < i < pos ==> cur.g < waiting[i].g
    {
      if waiting[pos].g <= minLine {
        minLine := waiting[pos].g;
        cur, at := waiting[pos], pos;
      }
      pos := pos + 1;
    }
  }

  // -------- one iteration keeps the invariant

  /** The flags say which neighbours of cur have been seen. */
  ghost predicate FlagsKnown(waiting: seq<PosA>, done: seq<PosA>, cur: PosA, flags: seq<bool>) {
    && |flags| == |NEIGHBOURS|
    && forall k :: 0 <= k < |NEIGHBOURS| ==> (flags[k] <==> Known(waiting, done, Step(cur.node, NEIGHBOURS[k])))
  }

  lemma OpeningIsNew(m: PkMap, end: Pos, waiting: seq<PosA>, done: seq<PosA>, cur: PosA, flags: seq<bool>)
    requires FlagsKnown(waiting, done, cur, flags)
    ensures var pushed := Opening(m, end, cur, flags, |NEIGHBOURS|);
      && DistinctNodes(pushed) && Apart(waiting, pushed) && Apart(pushed, done)
      && forall i :: 0 <= i < |pushed| ==> Walkable(m, pushed[i].node) && Opened(done + [cur], pushed[i], end)
  {
    var pushed := Opening(m, end, cur, flags, |NEIGHBOURS|);
    OpeningIsDistinct(m, end, cur, flags, |NEIGHBOURS|);
    forall i | 0 <= i < |pushed|
      ensures Walkable(m, pushed[i].node) && !Known(waiting, done, pushed[i].node)
      ensures Opened(done + [cur], pushed[i], end)
    {
      var k := OpeningIsChild(m, end, cur, flags, |NEIGHBOURS|, i);
      assert (done + [cur])[|done|] == cur && NEIGHBOURS[k] != NoDirect;
    }
  }

  lemma OpenedGrows(list: seq<PosA>, more: seq<PosA>, e: PosA, end: Pos)
    requires Opened(list, e, end)
    ensures Opened(list + more, e, end)
  {
    var j, d :| 0 <= j < |list| && d != NoDirect && e == Child(list[j], d, end);
    assert (list + more)[j] == list[j];
  }

  lemma KnownGrows(waiting: seq<PosA>, done: seq<PosA>, pushed: seq<PosA>, at: int, p: Pos)
    requires 0 <= at < |waiting|
    requires Known(waiting, done, p) || Listed(pushed, p)
    ensures Known(waiting[..at] + waiting[at + 1..] + pushed, done + [waiting[at]], p)
  {
    var w, d := waiting[..at] + waiting[at + 1..] + pushed, done + [waiting[at]];
    if Listed(pushed, p) {
      var i :| 0 <= i < |pushed| && pushed[i].node == p;
      assert w[|waiting| - 1 + i] == pushed[i];
    } else if Listed(waiting, p) {
      var i :| 0 <= i < |waiting| && waiting[i].node == p;
      if i < at {
        assert w[i] == waiting[i];
      } else if i > at {
        assert w[i - 1] == waiting[i];
      } else {
        assert d[|done|].node == p;
      }
    } else {
      var i :| 0 <= i < |done| && done[i].node == p;
      assert d[i].node == p;
    }
  }

  lemma ExpandedAfter(m: PkMap, start: Pos, end: Pos, waiting: seq<PosA>, done: seq<PosA>, at: int, flags: seq<bool>)
    requires SearchInv(m, start, end, waiting, done) && 0 <= at < |waiting|
    requires FlagsKnown(waiting, done, waiting[at], flags)
    ensures var pushed := Opening(m, end, waiting[at], flags, |NEIGHBOURS|);
      Expanded(m, waiting[..at] + waiting[at + 1..] + pushed, done + [waiting[at]])
  {
    var cur, pushed := waiting[at], Opening(m, end, waiting[at], flags, |NEIGHBOURS|);
    var w, dn := waiting[..at] + waiting[at + 1..] + pushed, done + [cur];
    forall i, d | 0 <= i < |dn| && Walkable(m, Step(dn[i].node, d))
      ensures Known(w, dn, Step(dn[i].node, d))
    {
      var p := Step(dn[i].node, d);
      if i < |done| {
        assert Known(waiting, done, Step(done[i].node, d));
      } else if d == NoDirect {
        assert waiting[at].node == p;
      } else {
        var k := NeighbourIndex(d);
        if !flags[k] {
          var j := ChildIsOpening(m, end, cur, flags, |NEIGHBOURS|, k);
          assert pushed[j].node == p;
        }
      }
      KnownGrows(waiting, done, pushed, at, p);
    }
  }

  lemma NeighbourIndex(d: Direct) returns (k: int)
    requires d != NoDirect
    ensures 0 <= k < |NEIGHBOURS| && NEIGHBOURS[k] == d
  {
    k := match d
      case NoDirect => 0
      case North => 0 case NorthEast => 1 case East => 2 case EastSouth => 3
      case South => 4 case SouthWest => 5 case West => 6 case WestNorth => 7;
  }

  lemma ParentsPrecedeAfter(start: Pos, end: Pos, done: seq<PosA>, cur: PosA)
    requires ParentsPrecede(done, start, end)
    requires if done == [] then cur == StartEntry(start) else Opened(done, cur, end)
    ensures ParentsPrecede(done + [cur], start, end)
  {
    var d := done + [cur];
    forall i | 1 <= i < |d|
      ensures Opened(d[..i], d[i], end)
    {
      assert d[..i] == if i < |done| then done[..i] else done;
    }
  }

  lemma DistinctAfter(waiting: seq<PosA>, done: seq<PosA>, pushed: seq<PosA>, at: int)
    requires DistinctNodes(waiting) && DistinctNodes(done) && DistinctNodes(pushed)
    requires Apart(waiting, done) && Apart(waiting, pushed) && Apart(pushed, done)
    requires 0 <= at < |waiting|
    ensures DistinctNodes(waiting[..at] + waiting[at + 1..] + pushed)
    ensures DistinctNodes(done + [waiting[at]])
    ensures Apart(waiting[..at] + waiting[at + 1..] + pushed, done + [waiting[at]])
  {
    var rest := waiting[..at] + waiting[at + 1..];
    assert forall i :: 0 <= i < |rest| ==> rest[i] == waiting[if i < at then i else i + 1];
  }

  /** One iteration: the neighbours of the current cell are opened, the cell itself is closed. */
  lemma IterationKeepsInv(m: PkMap, start: Pos, end: Pos, waiting: seq<PosA>, done: seq<PosA>, at: int,
                          flags: seq<bool>)
    requires SearchInv(m, start, end, waiting, done) && 0 <= at < |waiting|
    requires waiting[at].node != end
    requires FlagsKnown(waiting, done, waiting[at], flags)
    ensures var pushed := Opening(m, end, waiting[at], flags, |NEIGHBOURS|);
      SearchInv(m, start, end, waiting[..at] + waiting[at + 1..] + pushed, done + [waiting[at]])
  {
    var cur, pushed := waiting[at], Opening(m, end, waiting[at], flags, |NEIGHBOURS|);
    var w, d := waiting[..at] + waiting[at + 1..] + pushed, done + [cur];
    OpeningIsNew(m, end, waiting, done, cur, flags);
    DistinctAfter(waiting, done, pushed, at);
    ExpandedAfter(m, start, end, waiting, done, at, flags);
    ParentsPrecedeAfter(start, end, done, cur);
    WaitingAfter(m, start, end, waiting, done, pushed, at);
    ListedSnoc(done, cur, end);
  }

  lemma WaitingAfter(m: PkMap, start: Pos, end: Pos, waiting: seq<PosA>, done: seq<PosA>, pushed: seq<PosA>,
                     at: int)
    requires 0 <= at < |waiting|
    requires done == [] ==> waiting == [StartEntry(start)]
    requires done != [] ==> forall i :: 0 <= i < |waiting| ==> Opened(done, waiting[i], end)
    requires OnGround(m, start, waiting)
    requires forall i :: 0 <= i < |pushed| ==>
      Walkable(m, pushed[i].node) && Opened(done + [waiting[at]], pushed[i], end)
    ensures var w := waiting[..at] + waiting[at + 1..] + pushed;
      OnGround(m, start, w) && forall i :: 0 <= i < |w| ==> Opened(done + [waiting[at]], w[i], end)
  {
    var w := waiting[..at] + waiting[at + 1..] + pushed;
    forall i | 0 <= i < |w|
      ensures Opened(done + [waiting[at]], w[i], end) && (w[i].node == start || Walkable(m, w[i].node))
    {
      if i < |waiting| - 1 {
        var j := if i < at then i else i + 1;
        assert w[i] == waiting[j];
        OpenedGrows(done, [waiting[at]], waiting[j], end);
      } else {
        assert w[i] == pushed[i - (|waiting| - 1)];
      }
    }
  }
}
