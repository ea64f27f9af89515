/** PK_PE::AStar: search, backward walk, and the turning points sent to the clients. */
module AStar {
  import opened Grid
  import opened EmptyPos
  import opened Search
  import opened SearchBounds
  import opened PathCode
  import opened SearchRule

  ghost predicate Reachable(m: PkMap, start: Pos, end: Pos) {
    exists line :: WalkablePath(m, line) && Joins(line, start, end)
  }

  /** A closed list from which the path can be read off backwards. */
  ghost predicate Trail(m: PkMap, start: Pos, end: Pos, done: seq<PosA>) {
    && done != [] && done[|done| - 1].node == end
    && DistinctNodes(done) && OnGround(m, start, done)
    && ParentsPrecede(done, start, end)
  }

  /** Where the cut-off stops a search: it has closed a region of cells below the cut-off, and all
      cells it still knows of are at or beyond it. */
  ghost predicate Frontier(m: PkMap, start: Pos, end: Pos, waiting: seq<PosA>, done: seq<PosA>) {
    && SearchInv(m, start, end, waiting, done) && waiting != [] && done != []
    && (forall i :: 0 <= i < |waiting| ==> waiting[i].g >= MAP_MAX_LINE)
    && AllNear(done)
  }

  ghost predicate AllNear(done: seq<PosA>) {
    forall i :: 0 <= i < |done| ==> done[i].g < MAP_MAX_LINE
  }

  /** Giving up is justified as far as the estimates go: every walk to the target passes a cell whose
      estimate is not below the cut-off. */
  ghost predicate CutOff(m: PkMap, start: Pos, end: Pos) {
    exists waiting, done ::
      Frontier(m, start, end, waiting, done) &&
      forall line :: WalkablePath(m, line) && Joins(line, start, end) ==> Meets(waiting, line)
  }

  lemma FrontierIsCutOff(m: PkMap, start: Pos, end: Pos, waiting: seq<PosA>, done: seq<PosA>)
    requires Frontier(m, start, end, waiting, done)
    ensures CutOff(m, start, end)
  {
    assert done[0].node == start;
    forall line | WalkablePath(m, line) && Joins(line, start, end)
      ensures Meets(waiting, line)
    {
      WaitingFencesIn(m, start, waiting, done, line);
    }
  }

  ghost predicate Clear(m: PkMap, start: Pos, end: Pos) {
    IsOpenField(m) && Walkable(m, start) && Walkable(m, end)
  }

  /** The search has gone straight so far, and heads for the target. */
  ghost predicate OnCourse(start: Pos, end: Pos, waiting: seq<PosA>, done: seq<PosA>, cur: PosA) {
    Heading(start, end, waiting, done, cur) && Course(start, end, done + [cur])
  }

  /** Whatever the selection scan picks, that stays so. */
  ghost predicate HeadsOn(start: Pos, end: Pos, waiting: seq<PosA>, done: seq<PosA>) {
    forall next, to :: LastLeast(waiting, to, next) ==> OnCourse(start, end, waiting, done, next)
  }

  /** What the loop keeps while it has a current cell. */
  ghost predicate Searching(m: PkMap, start: Pos, end: Pos, waiting: seq<PosA>, done: seq<PosA>, cur: PosA, at: int) {
    && SearchInv(m, start, end, waiting, done) && LastLeast(waiting, at, cur)
    && OnRule(RuleFor(m, end), start, done, waiting)
    && AllNear(done) && cur.g < MAP_MAX_LINE
    && (Clear(m, start, end) ==> OnCourse(start, end, waiting, done, cur))
  }

  /** What holds when the current cell has been closed. */
  ghost predicate Advanced(m: PkMap, start: Pos, end: Pos, waiting: seq<PosA>, done: seq<PosA>) {
    && SearchInv(m, start, end, waiting, done) && done != []
    && OnRule(RuleFor(m, end), start, done, waiting)
    && AllNear(done)
    && (Clear(m, start, end) ==> waiting != [] && HeadsOn(start, end, waiting, done))
  }

  /** One iteration: opens the neighbours of the current cell and closes the cell. */
  method Advance(m: PkMap, ghost start: Pos, end: Pos, waiting: seq<PosA>, done: seq<PosA>, cur: PosA, ghost at: int)
    returns (waiting': seq<PosA>, done': seq<PosA>)
    requires Searching(m, start, end, waiting, done, cur, at) && cur.node != end
    ensures Advanced(m, start, end, waiting', done')
    ensures done' == done + [cur]
  {
    var flags := new bool[|NEIGHBOURS|](_ => false);
    MarkKnown(waiting, cur.node, flags);
    MarkKnown(done, cur.node, flags);
    ghost var known := flags[..];
    var grown := OpenNeighbours(m, end, cur, flags, waiting);
    CurrentIsFirst(waiting, Opening(m, end, cur, known, |NEIGHBOURS|), at);
    waiting', done' := MoveToDone(cur.node, grown, done);
    HasAdvanced(m, start, end, waiting, done, cur, at, known);
  }

  lemma HasAdvanced(m: PkMap, start: Pos, end: Pos, waiting: seq<PosA>, done: seq<PosA>, cur: PosA, at: int,
                    flags: seq<bool>)
    requires Searching(m, start, end, waiting, done, cur, at) && cur.node != end
    requires FlagsKnown(waiting, done, cur, flags)
    ensures var w := waiting[..at] + waiting[at + 1..] + Opening(m, end, cur, flags, |NEIGHBOURS|);
      Advanced(m, start, end, w, done + [cur])
  {
    IterationKeepsInv(m, start, end, waiting, done, at, flags);
    ClosedIsNext(m, end, waiting, done, cur, at, flags);
    RuleGrows(RuleFor(m, end), start, done, waiting, cur, at);
    if Clear(m, start, end) {
      StartIsAlone(m, start, end, waiting, done, at);
      AdvanceHeads(m, start, end, waiting, done, cur, at, flags);
    }
  }

  lemma StartIsAlone(m: PkMap, start: Pos, end: Pos, waiting: seq<PosA>, done: seq<PosA>, at: int)
    requires SearchInv(m, start, end, waiting, done) && 0 <= at < |waiting|
    ensures waiting[at] == StartEntry(start) ==> |waiting| == 1
    ensures Walkable(m, start) ==> Walkable(m, waiting[at].node)
  {
    if done != [] {
      assert done[0].node == start;
    }
  }

  lemma AdvanceHeads(m: PkMap, start: Pos, end: Pos, waiting: seq<PosA>, done: seq<PosA>, cur: PosA, at: int,
                     flags: seq<bool>)
    requires Clear(m, start, end) && Walkable(m, cur.node)
    requires cur == StartEntry(start) ==> |waiting| == 1
    requires 0 <= at < |waiting| && waiting[at] == cur && cur.node != end
    requires FlagsKnown(waiting, done, cur, flags)
    requires OnCourse(start, end, waiting, done, cur)
    ensures var w := waiting[..at] + waiting[at + 1..] + Opening(m, end, cur, flags, |NEIGHBOURS|);
      w != [] && HeadsOn(start, end, w, done + [cur])
  {
    var pushed := Opening(m, end, cur, flags, |NEIGHBOURS|);
    var j := OpeningTowards(m, end, cur, flags, waiting, done);
    var w := waiting[..at] + waiting[at + 1..] + pushed;
    assert w[|waiting| - 1 + j] == pushed[j];
    forall next, to | LastLeast(w, to, next)
      ensures OnCourse(start, end, w, done + [cur], next)
    {
      HeadingStep(start, end, waiting, done, cur, at, pushed, j, next, to);
      CourseGrows(start, end, done + [cur], next);
    }
  }

  /** The search loop. Every iteration closes one more cell, so it runs at most once per cell. */
  method FindWay(m: PkMap, start: Pos, end: Pos) returns (outcome: Outcome, done: seq<PosA>, iterations: nat)
    requires InBounds(start)
    ensures outcome != OffMap
    ensures iterations == |done| <= MAP_SIZE_X * MAP_SIZE_Y
    ensures outcome == Found ==> Trail(m, start, end, done)
    ensures outcome == Found ==> done[|done| - 1].f < MAP_MAX_LINE
    ensures BestFirst(RuleFor(m, end), start, done) && (outcome == Found ==> EndsAt(done, end))
    ensures outcome == NoWay ==> !Reachable(m, start, end)
    ensures outcome == TooFar ==> CutOff(m, start, end)
    ensures Clear(m, start, end) ==>
      outcome == Found && done[|done| - 1].f == Octile(start, end) && Course(start, end, done)
  {
    var cur := StartEntry(start);
    var waiting := [cur];
    done := [];
    iterations := 0;
    ghost var at := 0;
    SearchStarts(m, start, end);
    while true
      invariant Searching(m, start, end, waiting, done, cur, at)
      invariant iterations == |done|
      decreases MAP_SIZE_X * MAP_SIZE_Y - |done|
    {
      RoomToClose(m, start, end, waiting, done, cur, at);
      iterations := iterations + 1;
      if cur.node == end {
        TargetReached(m, start, end, waiting, done, cur, at);
        done := done + [cur];
        return Found, done, iterations;
      }
      waiting, done := Advance(m, start, end, waiting, done, cur, at);
      if |waiting| == 0 {
        NoWayLeft(m, start, end, done);
        return NoWay, done, iterations;
      }
      var minLine;
      cur, minLine, at := SelectNext(waiting);
      if minLine >= MAP_MAX_LINE {
        CutOffReached(m, start, end, waiting, done, cur, at);
        return TooFar, done, iterations;
      }
      GoesOn(m, start, end, waiting, done, cur, at);
    }
  }

  lemma RoomToClose(m: PkMap, start: Pos, end: Pos, waiting: seq<PosA>, done: seq<PosA>, cur: PosA, at: int)
    requires Searching(m, start, end, waiting, done, cur, at) && InBounds(start)
    ensures |done| + 1 <= MAP_SIZE_X * MAP_SIZE_Y
  {
    CloseCurrent(m, start, end, waiting, done, at);
  }

  lemma NoWayLeft(m: PkMap, start: Pos, end: Pos, done: seq<PosA>)
    requires Advanced(m, start, end, [], done)
    ensures !Reachable(m, start, end) && !Clear(m, start, end) && BestFirst(RuleFor(m, end), start, done)
  {
    NothingLeft(m, start, end, done);
  }

  lemma GoesOn(m: PkMap, start: Pos, end: Pos, waiting: seq<PosA>, done: seq<PosA>, cur: PosA, at: int)
    requires Advanced(m, start, end, waiting, done) && LastLeast(waiting, at, cur) && cur.g < MAP_MAX_LINE
    ensures Searching(m, start, end, waiting, done, cur, at)
  {
  }

  lemma TargetReached(m: PkMap, start: Pos, end: Pos, waiting: seq<PosA>, done: seq<PosA>, cur: PosA, at: int)
    requires Searching(m, start, end, waiting, done, cur, at) && cur.node == end && InBounds(start)
    ensures Trail(m, start, end, done + [cur]) && cur.f < MAP_MAX_LINE
    ensures BestFirst(RuleFor(m, end), start, done + [cur]) && EndsAt(done + [cur], end)
    ensures Clear(m, start, end) ==> cur.f == Octile(start, end) && Course(start, end, done + [cur])
  {
    TrailReached(m, start, end, waiting, done, at);
    RuleGrows(RuleFor(m, end), start, done, waiting, cur, at);
  }

  lemma TrailReached(m: PkMap, start: Pos, end: Pos, waiting: seq<PosA>, done: seq<PosA>, at: int)
    requires SearchInv(m, start, end, waiting, done) && 0 <= at < |waiting|
    requires waiting[at].node == end && InBounds(start)
    ensures Trail(m, start, end, done + [waiting[at]]) && EndsAt(done + [waiting[at]], end)
    ensures waiting[at].f == waiting[at].g
  {
    CloseCurrent(m, start, end, waiting, done, at);
    EstimateAtEnd(m, start, end, waiting, done, at);
    ClosedLast(done, waiting[at], end);
  }

  lemma CutOffReached(m: PkMap, start: Pos, end: Pos, waiting: seq<PosA>, done: seq<PosA>, cur: PosA, at: int)
    requires Advanced(m, start, end, waiting, done) && LastLeast(waiting, at, cur) && InBounds(start)
    requires cur.g >= MAP_MAX_LINE
    ensures CutOff(m, start, end) && !Clear(m, start, end) && BestFirst(RuleFor(m, end), start, done)
  {
    if Clear(m, start, end) {
      CutOffNotReached(m, start, end, waiting, done, at);
    }
    FrontierIsCutOff(m, start, end, waiting, done);
  }

  /** The closed list so far is that of the rule, and so is what waits. */
  ghost predicate OnRule(rule: Rule, start: Pos, done: seq<PosA>, waiting: seq<PosA>) {
    BestFirst(rule, start, done) && WaitingAt(rule, start, done, |done|) == waiting
  }

  lemma RuleGrows(rule: Rule, start: Pos, done: seq<PosA>, waiting: seq<PosA>, cur: PosA, at: int)
    requires OnRule(rule, start, done, waiting) && LastLeast(waiting, at, cur)
    ensures OnRule(rule, start, done + [cur], rule(waiting, done, cur))
  {
    BestFirstGrows(rule, start, done, cur);
  }

  lemma ClosedLast(done: seq<PosA>, cur: PosA, end: Pos)
    requires !Listed(done, end) && cur.node == end
    ensures EndsAt(done + [cur], end)
  {
  }

  /** At the target the estimate is the cost. */
  lemma EstimateAtEnd(m: PkMap, start: Pos, end: Pos, waiting: seq<PosA>, done: seq<PosA>, at: int)
    requires SearchInv(m, start, end, waiting, done) && 0 <= at < |waiting| && waiting[at].node == end
    ensures waiting[at].f == waiting[at].g
  {
    if done != [] {
      var j, d :| 0 <= j < |done| && d != NoDirect && waiting[at] == Child(done[j], d, end);
    }
  }

  lemma SearchStarts(m: PkMap, start: Pos, end: Pos)
    requires InBounds(start)
    ensures Searching(m, start, end, [StartEntry(start)], [], StartEntry(start), 0)
  {
  }

  lemma CutOffNotReached(m: PkMap, start: Pos, end: Pos, waiting: seq<PosA>, done: seq<PosA>, at: int)
    requires SearchInv(m, start, end, waiting, done) && 0 <= at < |waiting|
    requires Clear(m, start, end) && Heading(start, end, waiting, done, waiting[at])
    ensures waiting[at].g < MAP_MAX_LINE
  {
    HeadingIsNotTooFar(start, end, waiting, done, waiting[at]);
  }

  /** An empty open list means that no walk leads to the target. */
  lemma NothingLeft(m: PkMap, start: Pos, end: Pos, done: seq<PosA>)
    requires SearchInv(m, start, end, [], done)
    ensures !Reachable(m, start, end)
  {
    if line :| WalkablePath(m, line) && Joins(line, start, end) {
      assert done[0].node == start;
      WaitingFencesIn(m, start, [], done, line);
      assert false;
    }
  }

  /** The closed list stays a list of distinct cells of the map when the current cell joins it. */
  lemma CloseCurrent(m: PkMap, start: Pos, end: Pos, waiting: seq<PosA>, done: seq<PosA>, at: int)
    requires SearchInv(m, start, end, waiting, done) && 0 <= at < |waiting|
    requires InBounds(start)
    ensures DistinctNodes(done + [waiting[at]]) && OnGround(m, start, done + [waiting[at]])
    ensures ParentsPrecede(done + [waiting[at]], start, end)
    ensures |done| + 1 <= MAP_SIZE_X * MAP_SIZE_Y
  {
    ParentsPrecedeAfter(start, end, done, waiting[at]);
    DistinctCellsFit(done + [waiting[at]]);
  }

  /** The entry found by MoveToDone is the current one: no other entry has its cell. */
  lemma CurrentIsFirst(waiting: seq<PosA>, pushed: seq<PosA>, at: int)
    requires DistinctNodes(waiting) && 0 <= at < |waiting|
    ensures var grown := waiting + pushed;
      && grown[at] == waiting[at] && !Listed(grown[..at], waiting[at].node)
      && grown[..at] + grown[at + 1..] == waiting[..at] + waiting[at + 1..] + pushed
  {
    var grown := waiting + pushed;
    assert grown[..at] == waiting[..at];
    assert grown[at + 1..] == waiting[at + 1..] + pushed;
  }

  /** A trail yields a simple walkable path from start to end, of the cost noted at its end. */
  ghost predicate ReadOff(m: PkMap, start: Pos, end: Pos, done: seq<PosA>, line: seq<Pos>) {
    && WalkablePath(m, line) && Joins(line, start, end) && Distinct(line)
    && done != [] && PathCost(line) == done[|done| - 1].f
  }

  method PathOf(m: PkMap, ghost start: Pos, ghost end: Pos, done: seq<PosA>, firstDirect: Direct)
    returns (ok: bool, line: seq<Pos>, direct: Direct)
    requires Trail(m, start, end, done)
    ensures ok && ReadOff(m, start, end, done, line)
    ensures PathOn(done, end, line)
    ensures Course(start, end, done) ==> line == [start] + Walk(start, end)
    ensures direct == if |line| >= 2 then StepDirect(line, 0) else firstDirect
  {
    ghost var at;
    ok, line, direct, at := Backtrace(done, start, end, firstDirect);
    ChainIsPath(m, start, end, done, at, line);
    if Course(start, end, done) {
      CourseIsWalk(start, end, done, at, line);
    }
  }

  /** The target AStar really searches for: a blocked target is replaced by a nearby free cell. */
  ghost predicate Target(m: PkMap, endPos: Pos, direct: Direct, target: Pos) {
    if Walkable(m, endPos) then target == endPos else Substitutes(m, endPos, direct, target)
  }

  /** Everything a successful search promises about the path, the direction and the message. */
  ghost predicate GoodPath(m: PkMap, start: Pos, target: Pos, line: seq<Pos>, points: seq<Pos>) {
    && WalkablePath(m, line) && Joins(line, start, target) && Distinct(line)
    && PathCost(line) < MAP_MAX_LINE
    && points != [] && Expand(points) == line
    && |points| == 2 + Turns(line, |line| - 1)
  }

  ghost predicate Leads(m: PkMap, start: Pos, target: Pos, done: seq<PosA>, line: seq<Pos>) {
    && DistinctNodes(done) && EndsAt(done, target) && PathOn(done, target, line)
    && BestFirst(RuleFor(m, target), start, done)
  }

  /** The path is the one that the best-first rule leads to. */
  ghost predicate Searched(m: PkMap, start: Pos, target: Pos, line: seq<Pos>) {
    exists done :: Leads(m, start, target, done, line)
  }

  lemma IsSearched(m: PkMap, start: Pos, target: Pos, done: seq<PosA>, line: seq<Pos>)
    requires DistinctNodes(done) && EndsAt(done, target) && PathOn(done, target, line)
    requires BestFirst(RuleFor(m, target), start, done)
    ensures Searched(m, start, target, line)
  {
    assert Leads(m, start, target, done, line);
  }

  /** On every map, walls or not, there is no other. */
  lemma SearchedIsUnique(m: PkMap, start: Pos, target: Pos, line: seq<Pos>, other: seq<Pos>)
    requires Searched(m, start, target, line) && Searched(m, start, target, other)
    ensures line == other
  {
    var a :| Leads(m, start, target, a, line);
    var b :| Leads(m, start, target, b, other);
    SearchIsDetermined(RuleFor(m, target), start, target, a, b);
    PathIsDetermined(a, target, line, other);
  }

  /** No king path between the two cells costs less, not even one through walls. */
  ghost predicate Cheapest(start: Pos, target: Pos, line: seq<Pos>) {
    forall other :: KingPath(other) && Joins(other, start, target) ==> PathCost(line) <= PathCost(other)
  }

  /** The part of AStar after the target has been settled. */
  method PathTo(m: PkMap, start: Pos, end: Pos, oldLine: seq<Pos>, oldDirect: Direct)
    returns (outcome: Outcome, line: seq<Pos>, direct: Direct, points: seq<Pos>)
    requires InBounds(start)
    ensures outcome != OffMap
    ensures outcome != Found ==> line == oldLine && direct == oldDirect && points == []
    ensures outcome == Found ==> GoodPath(m, start, end, line, points) && Searched(m, start, end, line)
    ensures outcome == Found ==> direct == if |line| >= 2 then StepDirect(line, 0) else oldDirect
    ensures outcome == NoWay ==> !Reachable(m, start, end)
    ensures outcome == TooFar ==> CutOff(m, start, end)
    ensures IsOpenField(m) && Walkable(m, start) ==> (outcome == Found <==> Walkable(m, end))
    ensures outcome == Found && IsOpenField(m) && Walkable(m, start) ==>
      Cheapest(start, end, line) && line == [start] + Walk(start, end)
  {
    line, direct, points := oldLine, oldDirect, [];
    var done, iterations;
    outcome, done, iterations := FindWay(m, start, end);
    if outcome == Found {
      var ok, turnPoint;
      ok, line, direct := PathOf(m, start, end, done, oldDirect);
      ok, points, turnPoint := TurnPoints(line, direct);
      IsSearched(m, start, end, done, line);
      if IsOpenField(m) && Walkable(m, start) {
        CheapestOnOpenField(m, start, end, done, line);
      }
    }
  }

  /** AStar. The source returns 0 for Found and -1 otherwise; the caller's path and direction are
      only touched when a path is found. */
  method AStar(m: PkMap, roleDirect: Direct, startPos: Pos, endPos: Pos, oldLine: seq<Pos>, oldDirect: Direct)
    returns (outcome: Outcome, moveLine: seq<Pos>, firstDirect: Direct, points: seq<Pos>, ghost target: Pos)
    requires InBounds(endPos) ==> InBounds(startPos)
    ensures outcome == OffMap <==> !InBounds(endPos)
    ensures outcome != OffMap ==> Target(m, endPos, roleDirect, target)
    ensures outcome != Found ==> moveLine == oldLine && firstDirect == oldDirect && points == []
    ensures outcome == Found ==>
      GoodPath(m, startPos, target, moveLine, points) && Searched(m, startPos, target, moveLine)
    ensures outcome == Found ==> firstDirect == if |moveLine| >= 2 then StepDirect(moveLine, 0) else oldDirect
    ensures outcome == NoWay ==> !Reachable(m, startPos, target)
    ensures outcome == TooFar ==> CutOff(m, startPos, target)
    ensures outcome != OffMap && IsOpenField(m) && Walkable(m, startPos) ==>
      (outcome == Found <==> Walkable(m, target))
    ensures outcome == Found && IsOpenField(m) && Walkable(m, startPos) ==>
      Cheapest(startPos, target, moveLine) && moveLine == [startPos] + Walk(startPos, target)
  {
    target := endPos;
    if !InBounds(endPos) {
      return OffMap, oldLine, oldDirect, [], endPos;
    }
    var end := endPos;
    if m[end.y][end.x] == 0 {
      end := GetEmptyPos(m, end.x, end.y, roleDirect);
    }
    target := end;
    outcome, moveLine, firstDirect, points := PathTo(m, startPos, end, oldLine, oldDirect);
  }

  lemma CheapestOnOpenField(m: PkMap, start: Pos, end: Pos, done: seq<PosA>, line: seq<Pos>)
    requires ReadOff(m, start, end, done, line) && Walkable(m, start)
    requires Walkable(m, end) ==> done[|done| - 1].f == Octile(start, end)
    ensures Walkable(m, end) && Cheapest(start, end, line)
  {
    LastIsGround(m, start, end, line);
    forall other | KingPath(other) && Joins(other, start, end)
      ensures PathCost(line) <= PathCost(other)
    {
      OctileIsLowerBound(other);
    }
  }

  lemma LastIsGround(m: PkMap, start: Pos, end: Pos, line: seq<Pos>)
    requires WalkablePath(m, line) && Joins(line, start, end) && Walkable(m, start)
    ensures Walkable(m, end)
  {
    assert line[|line| - 1] == end;
  }

  /** On the map Init builds, from a walkable cell, the search succeeds exactly when the target or
      a cell that may replace it is free. */
  lemma OpenFieldSucceedsIff(m: PkMap, endPos: Pos, direct: Direct, target: Pos)
    requires InBounds(endPos) && Target(m, endPos, direct, target)
    ensures Walkable(m, target) <==>
      || Walkable(m, endPos)
      || (exists k: nat :: FirstAhead(m, endPos, direct, k))
      || (exists q :: Near(m, endPos, q, MAX_CIRCLE))
  {
    if !Walkable(m, endPos) {
      SubstituteIsFree(m, endPos, direct, target);
    }
  }

  /** On that map only the top row is hopeless: a target anywhere else is always replaced. */
  lemma OpenFieldTargets(m: PkMap, endPos: Pos, direct: Direct, target: Pos)
    requires IsOpenField(m) && InBounds(endPos) && Target(m, endPos, direct, target)
    ensures Walkable(m, target) <==> endPos.y >= 1
  {
    if Walkable(m, endPos) {
    } else {
      SubstituteIsFree(m, endPos, direct, target);
      if endPos.y >= 1 {
        assert Near(m, endPos, Pos(endPos.x, FORBIDDEN_Y), MAX_CIRCLE);
      }
    }
  }
}
