/** Walking refines the path: what holds over whole runs of CalculateMoveP. */
module WalkingRuns {
  import opened Grid
  import opened Dodge
  import opened Walking
  import AStar

  // -------- within one cell

  /** How far the two axes of a diagonal are from moving in step. */
  function Misalignment(d: Direct, mini: Pos): nat {
    var p := ProgressOf(d, mini);
    if IsDiagonal(d) then Abs(p.px - p.py) else 0
  }

  /** What is left to do before the cell is crossed: align, then reach the border. */
  function Room(d: Direct, mini: Pos): nat {
    Misalignment(d, mini) + Max(0, LENGTH_STRAIGHT + 1 - Decisive(d, ProgressOf(d, mini)))
  }

  /** Aligned diagonals stay aligned, across the border too; misalignment never grows, and is gone
      once a step is longer than it. */
  lemma AlignmentIsKept(d: Direct, mini: Pos, speed: int)
    requires 0 <= speed && IsDiagonal(d)
    ensures Misalignment(d, StrideMini(d, mini, speed)) ==
      if speed > Misalignment(d, mini) then 0 else Misalignment(d, mini) - speed
  {
  }

  /** A step that gets on: two units always do, one unit does unless an aligned diagonal scales it
      down to nothing. */
  predicate GetsOn(d: Direct, mini: Pos, speed: int) {
    speed >= 2 || (speed == 1 && !(IsDiagonal(d) && Misalignment(d, mini) == 0))
  }

  /** A call that does not leave the cell brings the border closer if and only if its step gets on. */
  lemma StrideProgresses(d: Direct, mini: Pos, speed: int)
    requires d != NoDirect && 0 <= speed && !StrideCrosses(d, mini, speed)
    ensures Room(d, StrideMini(d, mini, speed)) < Room(d, mini) <==> GetsOn(d, mini, speed)
  {
  }

  /** An aligned role inside its cell stays where it is if and only if its speed is at most one. */
  lemma SlowDiagonalIsStuck(d: Direct, mini: Pos, speed: int)
    requires 0 <= speed && IsDiagonal(d) && Misalignment(d, mini) == 0 && !Crosses(d, ProgressOf(d, mini))
    ensures StrideMini(d, mini, speed) == mini && !StrideCrosses(d, mini, speed) <==> speed <= 1
  {
  }

  /** The sub-cell offsets a role can have. An offset may lie outside its cell on one axis, after a
      diagonal was entered unaligned, but never on both, and never by more than a cell. */
  predicate InRegion(mini: Pos) {
    || (0 <= mini.x < 2 * LENGTH_STRAIGHT && 0 <= mini.y < LENGTH_STRAIGHT)
    || (0 <= mini.x < LENGTH_STRAIGHT && -LENGTH_STRAIGHT <= mini.y < 2 * LENGTH_STRAIGHT)
  }

  /** The cap keeps every step below a cell side, and then the offsets stay in that region whatever
      direction is taken: a 16-bit offset never wraps. */
  lemma RegionIsKept(d: Direct, mini: Pos, speedMod: int)
    requires InRegion(mini) && 0 <= Capped(speedMod)
    ensures InRegion(StrideMini(d, mini, Capped(speedMod)))
  {
    if IsDiagonal(d) {
      DiagonalKeepsRegion(d, mini, Capped(speedMod));
    }
  }

  lemma DiagonalKeepsRegion(d: Direct, mini: Pos, speed: int)
    requires InRegion(mini) && 0 <= speed < LENGTH_STRAIGHT && IsDiagonal(d)
    ensures InRegion(StrideMini(d, mini, speed))
  {
    var p := ProgressOf(d, mini);
    var q := Advance(d, p, speed);
    assert p.px <= q.px && p.py <= q.py;
  }

  /** The offset on the axis that decides when a cell is left. */
  function DecisiveOffset(d: Direct, mini: Pos): int {
    match d
    case North | South | SouthWest | WestNorth => mini.y
    case _ => mini.x
  }

  /** A role whose offset on that axis lies within its cell keeps it there: a border is crossed exactly
      when the offset would leave the cell. */
  lemma OffsetStaysInCell(d: Direct, mini: Pos, speedMod: int)
    requires 0 <= DecisiveOffset(d, mini) < LENGTH_STRAIGHT && 0 <= Capped(speedMod)
    ensures 0 <= DecisiveOffset(d, StrideMini(d, mini, Capped(speedMod))) < LENGTH_STRAIGHT
  {
  }

  /** Five cell sides: three of misalignment, two to the border. */
  const ROOM_MAX := 5000

  lemma RoomIsBounded(d: Direct, mini: Pos)
    requires InRegion(mini)
    ensures Room(d, mini) <= ROOM_MAX
  {
  }

  // -------- distances

  /** The place of a role in whole sub-cell coordinates. */
  function Place(pos: Pos, mini: Pos): Pos {
    Pos(1000 * pos.x + mini.x, 1000 * pos.y + mini.y)
  }

  function Moved(p: Pos, d: Direct, steps: int): Pos {
    Pos(p.x + OffsetX(d) * steps, p.y + OffsetY(d) * steps)
  }

  predicate Aligned(d: Direct, mini: Pos) {
    !IsDiagonal(d) || Misalignment(d, mini) == 0
  }

  /** How far an aligned stride goes on the axes of its direction. */
  function Reach(d: Direct, speed: nat): int {
    if IsDiagonal(d) then Diagonal(speed) else speed
  }

  /** Across borders or not: a straight stride moves by exactly its speed, an aligned diagonal one by the
      scaled speed on both axes. */
  lemma StrideDistance(d: Direct, pos: Pos, mini: Pos, speed: int, crossed: bool, pos': Pos, mini': Pos)
    requires 0 <= speed && Strode(d, pos, mini, speed, crossed, pos', mini') && Aligned(d, mini)
    ensures Place(pos', mini') == Moved(Place(pos, mini), d, Reach(d, speed))
  {
  }

  /** On a diagonal, the way on an axis is the gain in progress, whatever border is crossed. */
  lemma WayIsProgress(d: Direct, pos: Pos, mini: Pos, speed: int, crossed: bool, pos': Pos, mini': Pos)
    requires 0 <= speed && Strode(d, pos, mini, speed, crossed, pos', mini') && IsDiagonal(d)
    ensures var p, q := ProgressOf(d, mini), Advance(d, ProgressOf(d, mini), speed);
      && OffsetX(d) * (Place(pos', mini').x - Place(pos, mini).x) == q.px - p.px
      && OffsetY(d) * (Place(pos', mini').y - Place(pos, mini).y) == q.py - p.py
  {
  }

  lemma GapFirst(d: Direct, p: Progress, speed: int)
    requires 0 <= speed && IsDiagonal(d)
    ensures var q, gap := Advance(d, p, speed), Abs(p.px - p.py);
      var dx, dy := q.px - p.px, q.py - p.py;
      && 0 <= dx && 0 <= dy
      && dx + dy == (if speed <= gap then speed else gap + 2 * Diagonal(speed - gap))
      && Abs(dx - dy) == (if speed <= gap then speed else gap)
  {
  }

  /** An unaligned diagonal stride closes the gap first: only what its speed leaves over the gap is
      scaled and taken on both axes. */
  lemma UnalignedDistance(d: Direct, pos: Pos, mini: Pos, speed: int, crossed: bool, pos': Pos, mini': Pos)
    requires 0 <= speed && Strode(d, pos, mini, speed, crossed, pos', mini') && IsDiagonal(d)
    ensures var p, q, gap := Place(pos, mini), Place(pos', mini'), Misalignment(d, mini);
      var dx, dy := OffsetX(d) * (q.x - p.x), OffsetY(d) * (q.y - p.y);
      && 0 <= dx && 0 <= dy
      && dx + dy == (if speed <= gap then speed else gap + 2 * Diagonal(speed - gap))
      && Abs(dx - dy) == (if speed <= gap then speed else gap)
  {
    WayIsProgress(d, pos, mini, speed, crossed, pos', mini');
    GapFirst(d, ProgressOf(d, mini), speed);
  }

  // -------- along the path

  /** The role stands on cell k of the path, what is ahead of it is the rest of the path, and it
      looks to the next cell. */
  ghost predicate OnPath(path: seq<Pos>, k: int, st: MoveState) {
    && 0 <= k < |path|
    && st.line == path[k..] && st.pos == path[k]
    && (k + 1 < |path| ==> st.direct == GetDirect(path[k + 1], path[k]))
  }

  /** A role that has just been given a path by AStar, and looks in the direction AStar returned, is
      at the start of that path. */
  lemma FoundPathIsFollowed(m: PkMap, start: Pos, target: Pos, line: seq<Pos>, points: seq<Pos>, st: MoveState)
    requires AStar.GoodPath(m, start, target, line, points)
    requires st.line == line && st.pos == start
    requires |line| >= 2 ==> st.direct == GetDirect(line[1], line[0])
    ensures KingPath(line) && OnPath(line, 0, st) && line[|line| - 1] == target
  {
    assert line[0..] == line;
  }

  /** No other role stands on a cell of the path. */
  ghost predicate PathIsFree(path: seq<Pos>, c: Call, self: int) {
    forall i, k :: 0 <= i < |c.roles| && 0 <= k < |path| && c.roles[i].roleID != self ==> c.roles[i].cell != path[k]
  }

  /** One call moves the role on by at most one cell of its path. The cell the sub-cell steps lead
      to is the one the path names, so overwriting CurrentPos changes nothing. */
  lemma MoveFollowsPath(path: seq<Pos>, k: int, st: MoveState, c: Call, self: int, st': MoveState, result: MoveResult)
    requires KingPath(path) && OnPath(path, k, st) && PathIsFree(path, c, self)
    requires MovesTo(st, c, self, st', result)
    ensures OnPath(path, if Leaves(st, c) then k + 1 else k, st')
    ensures Leaves(st, c) ==> Step(st.pos, st.direct) == path[k + 1]
    ensures result == MoveError <==> c.limitCounter <= 0 && k == |path| - 1
  {
    if k + 1 < |path| {
      assert KingMove(path[k], path[k + 1]);
      KingMoveIsStep(path[k], path[k + 1]);
      assert st.line[1] == path[k + 1];
      if Leaves(st, c) {
        var s: nat :| Settles(c.roles, self, path[k + 1], s) && EntersAt(st, c, Shoved(path[k + 1], s), st', result);
        assert s == 0;
        assert Shoved(path[k + 1], s) == path[k + 1];
        assert st'.line == path[k + 1..];
        if k + 2 < |path| {
          assert KingMove(path[k + 1], path[k + 2]);
          KingMoveIsStep(path[k + 1], path[k + 2]);
        }
      }
    }
  }

  ghost predicate CallTo(st: MoveState, c: Call, self: int, st': MoveState) {
    exists r :: MovesTo(st, c, self, st', r)
  }

  /** A run: each state comes from the one before by a call. */
  ghost predicate Run(states: seq<MoveState>, calls: seq<Call>, self: int) {
    && |states| == |calls| + 1
    && forall i :: 0 <= i < |calls| ==> CallTo(states[i], calls[i], self, states[i + 1])
  }

  ghost predicate FreeRun(path: seq<Pos>, states: seq<MoveState>, calls: seq<Call>, self: int) {
    && KingPath(path) && Run(states, calls, self) && OnPath(path, 0, states[0])
    && forall i :: 0 <= i < |calls| ==> PathIsFree(path, calls[i], self)
  }

  function Index(path: seq<Pos>, st: MoveState): int {
    |path| - |st.line|
  }

  /** Any run visits exactly the cells of the path, in order, none skipped, whatever the speeds and
      interruptions are. */
  lemma {:induction false} RunFollowsPath(path: seq<Pos>, states: seq<MoveState>, calls: seq<Call>, self: int, i: int)
    requires FreeRun(path, states, calls, self) && 0 <= i <= |calls|
    ensures OnPath(path, Index(path, states[i]), states[i])
    ensures i > 0 && Leaves(states[i - 1], calls[i - 1]) ==> Index(path, states[i]) == Index(path, states[i - 1]) + 1
    ensures i > 0 && !Leaves(states[i - 1], calls[i - 1]) ==> Index(path, states[i]) == Index(path, states[i - 1])
  {
    if i > 0 {
      RunFollowsPath(path, states, calls, self, i - 1);
      assert CallTo(states[i - 1], calls[i - 1], self, states[i]);
      var r :| MovesTo(states[i - 1], calls[i - 1], self, states[i], r);
      MoveFollowsPath(path, Index(path, states[i - 1]), states[i - 1], calls[i - 1], self, states[i], r);
    }
  }

  ghost predicate HasDiagonal(path: seq<Pos>) {
    exists i :: 0 <= i < |path| - 1 && IsDiagonal(GetDirect(path[i + 1], path[i]))
  }

  /** Nothing holds the role back: it may move, and fast enough for the path. */
  ghost predicate Unhindered(path: seq<Pos>, calls: seq<Call>) {
    forall i :: 0 <= i < |calls| ==>
      calls[i].limitCounter <= 0 && calls[i].speedMod >= if HasDiagonal(path) then 2 else 1
  }

  function Remaining(st: MoveState): int {
    5001 * (|st.line| - 1) + Room(st.direct, st.mini)
  }

  lemma RemainingDrops(st: MoveState, c: Call, st': MoveState)
    requires InRegion(st.mini) && Moving(st, c) && st.direct != NoDirect
    requires c.speedMod >= if IsDiagonal(st.direct) then 2 else 1
    requires st'.mini == StrideMini(st.direct, st.mini, Capped(c.speedMod))
    requires if Leaves(st, c) then |st'.line| == |st.line| - 1
             else st'.line == st.line && st'.direct == st.direct
    ensures InRegion(st'.mini) && Remaining(st') < Remaining(st)
  {
    RegionIsKept(st.direct, st.mini, c.speedMod);
    RoomIsBounded(st'.direct, st'.mini);
    if !Leaves(st, c) {
      StrideProgresses(st.direct, st.mini, Capped(c.speedMod));
    }
  }

  lemma CallProgresses(path: seq<Pos>, k: int, st: MoveState, c: Call, self: int, st': MoveState)
    requires KingPath(path) && OnPath(path, k, st) && PathIsFree(path, c, self) && InRegion(st.mini)
    requires c.limitCounter <= 0 && c.speedMod >= if HasDiagonal(path) then 2 else 1
    requires CallTo(st, c, self, st')
    ensures InRegion(st'.mini)
    ensures |st'.line| > 1 ==> |st.line| > 1 && Remaining(st') < Remaining(st)
  {
    var r :| MovesTo(st, c, self, st', r);
    if Moving(st, c) {
      assert KingMove(path[k], path[k + 1]);
      KingMoveIsStep(path[k], path[k + 1]);
      assert IsDiagonal(GetDirect(path[k + 1], path[k])) ==> HasDiagonal(path);
      RemainingDrops(st, c, st');
    }
  }

  lemma {:induction false} RunProgresses(path: seq<Pos>, states: seq<MoveState>, calls: seq<Call>, self: int, i: int)
    requires FreeRun(path, states, calls, self) && Unhindered(path, calls) && InRegion(states[0].mini)
    requires 0 <= i <= |calls|
    ensures InRegion(states[i].mini)
    ensures |states[i].line| > 1 ==> Remaining(states[i]) <= Remaining(states[0]) - i
  {
    if i > 0 {
      RunProgresses(path, states, calls, self, i - 1);
      RunFollowsPath(path, states, calls, self, i - 1);
      CallProgresses(path, Index(path, states[i - 1]), states[i - 1], calls[i - 1], self, states[i]);
    }
  }

  /** Every unhindered run that is long enough arrives at the last cell of its path. */
  lemma RunArrives(path: seq<Pos>, states: seq<MoveState>, calls: seq<Call>, self: int)
    requires FreeRun(path, states, calls, self) && Unhindered(path, calls) && InRegion(states[0].mini)
    requires |calls| >= 5001 * |path|
    ensures states[|calls|].pos == path[|path| - 1] && states[|calls|].line == [path[|path| - 1]]
  {
    var n := |calls|;
    RunProgresses(path, states, calls, self, n);
    RunFollowsPath(path, states, calls, self, n);
    RoomIsBounded(states[0].direct, states[0].mini);
    assert states[0].line == path[0..];
    assert Remaining(states[n]) >= 0;
  }

  /** The axis that is ahead on a diagonal has not reached the border. */
  predicate LeadInside(d: Direct, mini: Pos) {
    IsDiagonal(d) && Max(ProgressOf(d, mini).px, ProgressOf(d, mini).py) < LENGTH_STRAIGHT
  }

  /** Speed two is needed on diagonals: from such a place no number of slower calls leaves the cell. */
  lemma {:induction false} SlowRunStays(states: seq<MoveState>, calls: seq<Call>, self: int, i: int)
    requires Run(states, calls, self) && 0 <= i <= |calls|
    requires forall j :: 0 <= j < |calls| ==> calls[j].speedMod <= 1
    requires LeadInside(states[0].direct, states[0].mini)
    ensures LeadInside(states[i].direct, states[i].mini)
    ensures states[i].pos == states[0].pos && states[i].line == states[0].line
  {
    if i > 0 {
      SlowRunStays(states, calls, self, i - 1);
      assert CallTo(states[i - 1], calls[i - 1], self, states[i]);
      var r :| MovesTo(states[i - 1], calls[i - 1], self, states[i], r);
    }
  }

  /** How far a call goes. */
  function CallReach(st: MoveState, c: Call): int {
    if Moving(st, c) then Reach(st.direct, Min(c.speedMod, 999)) else 0
  }

  /** The way of the first n calls of a run, summed up. */
  function Way(states: seq<MoveState>, calls: seq<Call>, n: nat): Pos
    requires n <= |calls| <= |states|
  {
    if n == 0 then Pos(0, 0)
    else Moved(Way(states, calls, n - 1), states[n - 1].direct, CallReach(states[n - 1], calls[n - 1]))
  }

  lemma CallDistance(path: seq<Pos>, k: int, st: MoveState, c: Call, self: int, st': MoveState)
    requires KingPath(path) && OnPath(path, k, st) && PathIsFree(path, c, self) && CallTo(st, c, self, st')
    requires Aligned(st.direct, st.mini)
    ensures Place(st'.pos, st'.mini) == Moved(Place(st.pos, st.mini), st.direct, CallReach(st, c))
  {
    var r :| MovesTo(st, c, self, st', r);
    MoveFollowsPath(path, k, st, c, self, st', r);
    if Moving(st, c) {
      StrideDistance(st.direct, st.pos, st.mini, Capped(c.speedMod), Leaves(st, c), st'.pos, st'.mini);
    }
  }

  /** A run whose diagonals are walked aligned goes exactly as far as its speeds say, whatever borders it
      crosses and wherever the path turns. */
  lemma {:induction false} RunDistance(path: seq<Pos>, states: seq<MoveState>, calls: seq<Call>, self: int, n: nat)
    requires FreeRun(path, states, calls, self) && n <= |calls|
    requires forall i :: 0 <= i < |calls| ==> Aligned(states[i].direct, states[i].mini)
    ensures var p, w := Place(states[0].pos, states[0].mini), Way(states, calls, n);
      Place(states[n].pos, states[n].mini) == Pos(p.x + w.x, p.y + w.y)
  {
    if n > 0 {
      RunDistance(path, states, calls, self, n - 1);
      RunFollowsPath(path, states, calls, self, n - 1);
      assert CallTo(states[n - 1], calls[n - 1], self, states[n]);
      CallDistance(path, Index(path, states[n - 1]), states[n - 1], calls[n - 1], self, states[n]);
    }
  }
}
