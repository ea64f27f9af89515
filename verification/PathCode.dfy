/** Reading the path off the closed list, and packing it into turning points. */
module PathCode {
  import opened Grid
  import opened Search
  import opened SearchBounds

  // -------- the backward walk

  /** The path is a chain of closed entries, each one opened from the entry before it. */
  ghost predicate Chain(done: seq<PosA>, at: seq<int>, line: seq<Pos>, end: Pos) {
    && |at| == |line| > 0
    && (forall i :: 0 <= i < |at| ==> 0 <= at[i] < |done| && line[i] == done[at[i]].node)
    && (forall i :: 0 <= i < |at| - 1 ==> at[i] < at[i + 1] && ChildOf(done[at[i]], done[at[i + 1]], end))
  }

  ghost predicate ChildOf(p: PosA, e: PosA, end: Pos) {
    exists d :: d != NoDirect && e == Child(p, d, end)
  }

  /** The list is read backwards: each entry's parent is searched for among the earlier ones. The
      source's two error returns are not taken: ok never becomes false. */
  method Backtrace(done: seq<PosA>, ghost start: Pos, ghost end: Pos, firstDirect: Direct)
    returns (ok: bool, line: seq<Pos>, direct: Direct, ghost at: seq<int>)
    requires done != [] && DistinctNodes(done) && ParentsPrecede(done, start, end)
    ensures ok
    ensures Chain(done, at, line, end) && at[0] == 0 && at[|at| - 1] == |done| - 1
    ensures direct == if |line| >= 2 then GetDirect(line[1], line[0]) else firstDirect
  {
    ok := true;
    direct := firstDirect;
    var pos := |done| - 1;
    line, at := [done[pos].node], [pos];
    while pos != 0
      invariant 0 <= pos < |done|
      invariant ok && Chain(done, at, line, end) && at[0] == pos && at[|at| - 1] == |done| - 1
      invariant direct == if pos == 0 && |line| >= 2 then GetDirect(line[1], line[0]) else firstDirect
      decreases pos
    {
      var prePos;
      ok, prePos, direct := StepBack(done, start, end, pos, direct);
      if !ok {
        return;
      }
      ChainGrows(done, at, line, end, prePos);
      line := [done[prePos].node] + line;
      at := [prePos] + at;
      pos := prePos;
    }
  }

  lemma ChainGrows(done: seq<PosA>, at: seq<int>, line: seq<Pos>, end: Pos, pre: int)
    requires Chain(done, at, line, end) && 0 <= pre < at[0] && ChildOf(done[pre], done[at[0]], end)
    ensures Chain(done, [pre] + at, [done[pre].node] + line, end)
  {
  }

  /** The inner loop: from the entry at pos back to its parent. The first direction is set when the
      walk reaches the first entry, which is when that entry is the parent. */
  method StepBack(done: seq<PosA>, ghost start: Pos, ghost end: Pos, pos: int, firstDirect: Direct)
    returns (ok: bool, prePos: int, direct: Direct)
    requires DistinctNodes(done) && ParentsPrecede(done, start, end) && 1 <= pos < |done|
    ensures ok && 0 <= prePos < pos && ChildOf(done[prePos], done[pos], end)
    ensures direct == if prePos == 0 then GetDirect(done[pos].node, done[0].node) else firstDirect
  {
    ghost var parent := ParentOf(done, start, end, pos);
    ok, direct, prePos := true, firstDirect, pos;
    while true
      invariant parent < prePos <= pos
      invariant ok && direct == firstDirect
      decreases prePos
    {
      prePos := prePos - 1;
      if prePos == 0 {
        direct := GetDirect(done[pos].node, done[prePos].node);
        if direct == NoDirect {
          ok := false;
          return;
        }
      }
      if done[pos].parent == done[prePos].node || prePos == 0 {
        return;
      }
    }
  }

  lemma ParentOf(done: seq<PosA>, start: Pos, end: Pos, pos: int) returns (parent: int)
    requires DistinctNodes(done) && ParentsPrecede(done, start, end) && 1 <= pos < |done|
    ensures 0 <= parent < pos && ChildOf(done[parent], done[pos], end)
    ensures done[parent].node == done[pos].parent
    ensures forall k :: 0 <= k < |done| && done[k].node == done[pos].parent ==> k == parent
    ensures GetDirect(done[pos].node, done[parent].node) != NoDirect
  {
    assert Opened(done[..pos], done[pos], end);
    var j, d :| 0 <= j < pos && d != NoDirect && done[pos] == Child(done[..pos][j], d, end);
    DirectOfStep(done[j].node, d);
    parent := j;
  }

  /** A chain is a simple king path over ground, and its step costs add up to the cost of its end. */
  lemma ChainIsPath(m: PkMap, start: Pos, end: Pos, done: seq<PosA>, at: seq<int>, line: seq<Pos>)
    requires DistinctNodes(done) && OnGround(m, start, done) && ParentsPrecede(done, start, end)
    requires Chain(done, at, line, end) && at[0] == 0
    ensures line[0] == start && WalkablePath(m, line) && Distinct(line)
    ensures PathCost(line) == done[at[|at| - 1]].f
  {
    forall i, j | 0 <= i < j < |line|
      ensures line[i] != line[j]
    {
      ChainIncreases(at, i, j);
    }
    forall i | 0 <= i < |line| - 1
      ensures KingMove(line[i], line[i + 1])
    {
      var d :| d != NoDirect && done[at[i + 1]] == Child(done[at[i]], d, end);
    }
    ChainCost(done, at, line, end);
  }

  lemma {:induction false} ChainIncreases(at: seq<int>, i: int, j: int)
    requires 0 <= i < j < |at| && forall k :: 0 <= k < |at| - 1 ==> at[k] < at[k + 1]
    ensures at[i] < at[j]
  {
    if i < j - 1 {
      ChainIncreases(at, i, j - 1);
    }
  }

  lemma {:induction false} ChainCost(done: seq<PosA>, at: seq<int>, line: seq<Pos>, end: Pos)
    requires Chain(done, at, line, end)
    ensures done[at[0]].f + PathCost(line) == done[at[|at| - 1]].f
  {
    if |line| >= 2 {
      assert ChildOf(done[at[0]], done[at[1]], end);
      var d :| d != NoDirect && done[at[1]] == Child(done[at[0]], d, end);
      DirectOfStep(line[0], d);
      assert Chain(done, at[1..], line[1..], end);
      ChainCost(done, at[1..], line[1..], end);
    }
  }

  /** The walk back along a course skips nothing: every entry was opened by the one before it. */
  lemma {:induction false} CourseIsChain(start: Pos, end: Pos, done: seq<PosA>, at: seq<int>, line: seq<Pos>, i: int)
    requires DistinctNodes(done) && Course(start, end, done)
    requires Chain(done, at, line, end) && at[|at| - 1] == |done| - 1
    requires 0 <= i < |at|
    ensures at[i] == |done| - |at| + i
    decreases |at| - i
  {
    if i < |at| - 1 {
      CourseIsChain(start, end, done, at, line, i + 1);
      assert ChildOf(done[at[i]], done[at[i + 1]], end);
      var d :| d != NoDirect && done[at[i + 1]] == Child(done[at[i]], d, end);
      assert done[at[i + 1]].parent == done[at[i + 1] - 1].node == done[at[i]].node;
    }
  }

  /** Every cell is the step towards the target from the one before it. */
  ghost predicate HeadsTo(line: seq<Pos>, end: Pos) {
    && line != [] && line[|line| - 1] == end
    && forall i :: 0 <= i < |line| - 1 ==> line[i] != end && line[i + 1] == Step(line[i], GetDirect(end, line[i]))
  }

  lemma {:induction false} HeadingIsWalk(line: seq<Pos>, end: Pos)
    requires HeadsTo(line, end)
    ensures line == [line[0]] + Walk(line[0], end)
  {
    if |line| >= 2 {
      assert HeadsTo(line[1..], end);
      HeadingIsWalk(line[1..], end);
    }
  }

  /** What is read off a course is the straight-line walk: diagonal as long as both axes differ, then
      along one axis. */
  lemma CourseIsWalk(start: Pos, end: Pos, done: seq<PosA>, at: seq<int>, line: seq<Pos>)
    requires DistinctNodes(done) && Course(start, end, done) && done[|done| - 1].node == end
    requires Chain(done, at, line, end) && at[0] == 0 && at[|at| - 1] == |done| - 1
    ensures line == [start] + Walk(start, end)
  {
    CourseIsChain(start, end, done, at, line, 0);
    forall i | 0 <= i < |line|
      ensures line[i] == done[i].node
    {
      CourseIsChain(start, end, done, at, line, i);
    }
    assert HeadsTo(line, end);
    HeadingIsWalk(line, end);
  }

  // -------- turning points

  function StepDirect(line: seq<Pos>, i: int): Direct
    requires 0 <= i < |line| - 1
  {
    GetDirect(line[i + 1], line[i])
  }

  /** How often the direction changes along the first k steps. */
  function Turns(line: seq<Pos>, k: int): nat
    requires 0 <= k < |line|
    decreases k
  {
    if k < 2 then 0
    else Turns(line, k - 1) + if StepDirect(line, k - 1) != StepDirect(line, k - 2) then 1 else 0
  }

  /** The cells after a on the straight walk from a to b. */
  function Walk(a: Pos, b: Pos): seq<Pos>
    decreases Chebyshev(a, b)
  {
    if a == b then [] else [Step(a, GetDirect(b, a))] + Walk(Step(a, GetDirect(b, a)), b)
  }

  /** What a client does with the message: it walks straight from each point to the next. */
  function Expand(points: seq<Pos>): seq<Pos>
    requires points != []
  {
    if |points| == 1 then points
    else Expand(points[..|points| - 1]) + Walk(points[|points| - 2], points[|points| - 1])
  }

  /** All steps from index i to index j go in direction d. */
  ghost predicate Straight(line: seq<Pos>, i: int, j: int, d: Direct) {
    && 0 <= i <= j < |line|
    && forall k :: i <= k < j ==> StepDirect(line, k) == d
  }

  lemma DirectAhead(a: Pos, b: Pos, c: Pos)
    requires KingMove(a, b) && (b == c || GetDirect(c, b) == GetDirect(b, a))
    ensures GetDirect(c, a) == GetDirect(b, a)
  {
  }

  lemma {:induction false} StraightWalk(line: seq<Pos>, i: int, j: int, d: Direct)
    requires KingPath(line) && Straight(line, i, j, d)
    ensures Walk(line[i], line[j]) == line[i + 1..j + 1]
    ensures i < j ==> GetDirect(line[j], line[i]) == d && line[i] != line[j]
    decreases j - i
  {
    if i < j {
      assert KingMove(line[i], line[i + 1]) && StepDirect(line, i) == d;
      KingMoveIsStep(line[i], line[i + 1]);
      StraightWalk(line, i + 1, j, d);
      DirectAhead(line[i], line[i + 1], line[j]);
      assert line[i + 1..j + 1] == [line[i + 1]] + line[i + 2..j + 1];
    }
  }

  /** The points written so far expand to the path up to index last; the cells from there to
      index pre continue straight in direction d. */
  ghost predicate Packed(line: seq<Pos>, points: seq<Pos>, last: int, pre: int, d: Direct) {
    && Straight(line, last, pre, d)
    && points != [] && points[|points| - 1] == line[last]
    && Expand(points) == line[..last + 1]
  }

  /** Writing the current cell closes a straight piece. */
  lemma AddPoint(line: seq<Pos>, points: seq<Pos>, last: int, pre: int, d: Direct, e: Direct)
    requires KingPath(line) && Packed(line, points, last, pre, d)
    ensures Packed(line, points + [line[pre]], pre, pre, e)
  {
    var longer := points + [line[pre]];
    assert longer[..|longer| - 1] == points;
    StraightWalk(line, last, pre, d);
    assert line[..last + 1] + line[last + 1..pre + 1] == line[..pre + 1];
  }

  /** With the right first direction, exactly one point per turn has been written after the first. */
  ghost predicate Counted(line: seq<Pos>, firstDirect: Direct, count: int, pre: int, d: Direct) {
    0 <= pre < |line| && (|line| >= 2 && firstDirect == StepDirect(line, 0) ==>
      && count == Turns(line, pre) + 1
      && d == if pre == 0 then firstDirect else StepDirect(line, pre - 1))
  }

  lemma PackStep(line: seq<Pos>, firstDirect: Direct, points: seq<Pos>, last: int, pre: int, was: Direct)
    requires KingPath(line) && pre + 1 < |line|
    requires Packed(line, points, last, pre, was) && Counted(line, firstDirect, |points|, pre, was)
    ensures var d := StepDirect(line, pre);
      && d != NoDirect
      && (d == was ==> Packed(line, points, last, pre + 1, d) && Counted(line, firstDirect, |points|, pre + 1, d))
      && (d != was ==> Packed(line, points + [line[pre]], pre, pre + 1, d) &&
                       Counted(line, firstDirect, |points| + 1, pre + 1, d))
  {
    var d := StepDirect(line, pre);
    assert KingMove(line[pre], line[pre + 1]);
    KingMoveIsStep(line[pre], line[pre + 1]);
    if d != was {
      AddPoint(line, points, last, pre, was, d);
    }
  }

  /** Packs the path: a point is written where the direction changes, and at both ends. The
      source's error return for two equal cells in a row is ok == false. */
  method TurnPoints(line: seq<Pos>, firstDirect: Direct) returns (ok: bool, points: seq<Pos>, turnPoint: int)
    requires KingPath(line)
    ensures ok && points != [] && Expand(points) == line && turnPoint == |points|
    ensures |line| >= 2 && firstDirect == StepDirect(line, 0) ==>
      |points| == Turns(line, |line| - 1) + 2
    ensures |line| == 1 ==> |points| == 2
  {
    ok := true;
    var pre := 0;
    var directCurrent := firstDirect;
    points, turnPoint := [line[pre]], 1;
    var current := pre + 1;
    ghost var last := 0;
    while current < |line|
      invariant current == pre + 1 <= |line|
      invariant turnPoint == |points| && (pre == 0 ==> |points| == 1)
      invariant Packed(line, points, last, pre, directCurrent)
      invariant Counted(line, firstDirect, |points|, pre, directCurrent)
    {
      var d := GetDirect(line[current], line[pre]);
      PackStep(line, firstDirect, points, last, pre, directCurrent);
      if d == NoDirect {
        ok := false;
        return;
      }
      if directCurrent != d {
        directCurrent := d;
        points := points + [line[pre]];
        turnPoint := turnPoint + 1;
        last := pre;
      }
      current, pre := current + 1, pre + 1;
    }
    AddPoint(line, points, last, pre, directCurrent, directCurrent);
    points := points + [line[pre]];
    turnPoint := turnPoint + 1;
    assert line[..pre + 1] == line;
  }
}
