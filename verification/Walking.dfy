/** CalculateMoveP: a role follows its path in sub-cell steps. */
module Walking {
  import opened Grid
  import opened Dodge

  /** Sub-cell units along the side of a cell. */
  const LENGTH_STRAIGHT := 1000

  datatype MoveResult = OkMove | NoMove | MoveError

  /** The speeds at which the double product speed * 0.7 falls below the exact one; truncation then
      loses a whole unit. */
  const ROUNDED_DOWN := {90, 170, 180, 330, 340, 350, 360, 650, 660, 670, 680, 690, 700, 710, 720, 730}

  /** (short int)(speed * MOD_STRAIGHT_DIAGONAL). */
  function Diagonal(speed: int): (d: int)
    requires 0 <= speed
    ensures 0 <= d <= speed && (speed >= 2 ==> d >= 1)
    ensures 10 * d <= 7 * speed < 10 * d + 20
    ensures speed !in ROUNDED_DOWN ==> 7 * speed < 10 * d + 10
  {
    7 * speed / 10 - if speed in ROUNDED_DOWN then 1 else 0
  }

  /** A diagonal step is never longer than a straight one, and is short of 0.7 of it by less than two
      units on each axis. */
  lemma DiagonalIsNoShortCut(speed: int)
    requires 0 <= speed
    ensures var d := Diagonal(speed);
      2 * d * d <= speed * speed && 7 * speed < 10 * d + 20
  {
    var d := Diagonal(speed);
    ProductsGrow(10 * d, 7 * speed);
    assert 100 * (d * d) <= 49 * (speed * speed);
  }

  lemma ProductsGrow(a: nat, b: nat)
    requires a <= b
    ensures a * a <= b * b
  {
    assert b * b - a * a == (b - a) * (b + a);
  }

  /** The cap on SpeedMod. */
  function Capped(speedMod: int): int {
    if speedMod >= MAP_MAX_LINE then MAP_MAX_LINE - 1 else speedMod
  }

  // -------- the specification: one rule for all eight directions

  /** Progress through the cell on the two axes, measured in the direction of travel. */
  datatype Progress = Progress(px: int, py: int)

  function ProgressOf(d: Direct, mini: Pos): Progress {
    Progress(if OffsetX(d) < 0 then LENGTH_STRAIGHT - mini.x else mini.x,
             if OffsetY(d) < 0 then LENGTH_STRAIGHT - mini.y else mini.y)
  }

  function MiniOf(d: Direct, p: Progress): Pos {
    Pos(if OffsetX(d) < 0 then LENGTH_STRAIGHT - p.px else p.px,
        if OffsetY(d) < 0 then LENGTH_STRAIGHT - p.py else p.py)
  }

  predicate IsDiagonal(d: Direct) {
    OffsetX(d) != 0 && OffsetY(d) != 0
  }

  /** On a diagonal the axis that lags catches up first; what is left of the step is shared. */
  function Advance(d: Direct, p: Progress, speed: int): Progress
    requires 0 <= speed
  {
    if !IsDiagonal(d) then
      Progress(if OffsetX(d) == 0 then p.px else p.px + speed, if OffsetY(d) == 0 then p.py else p.py + speed)
    else
      var lag := Abs(p.px - p.py);
      if speed > lag || lag == 0 then
        var lead := Max(p.px, p.py) + Diagonal(speed - lag);
        Progress(lead, lead)
      else if p.px < p.py then Progress(p.px + speed, p.py)
      else Progress(p.px, p.py + speed)
  }

  /** The axis whose progress decides that the role has left its cell. */
  function Decisive(d: Direct, p: Progress): int {
    match d
    case North | South | SouthWest | WestNorth => p.py
    case _ => p.px
  }

  /** Towards smaller coordinates the border itself still belongs to the cell. */
  predicate Crosses(d: Direct, p: Progress) {
    d != NoDirect &&
    if d in {North, West, WestNorth} then Decisive(d, p) > LENGTH_STRAIGHT
    else Decisive(d, p) >= LENGTH_STRAIGHT
  }

  /** The new cell is entered at its near side, on the axes that move. */
  function Enter(d: Direct, p: Progress): Progress {
    Progress(if OffsetX(d) == 0 then p.px else p.px - LENGTH_STRAIGHT,
             if OffsetY(d) == 0 then p.py else p.py - LENGTH_STRAIGHT)
  }

  predicate StrideCrosses(d: Direct, mini: Pos, speed: int)
    requires 0 <= speed
  {
    Crosses(d, Advance(d, ProgressOf(d, mini), speed))
  }

  function StrideMini(d: Direct, mini: Pos, speed: int): Pos
    requires 0 <= speed
  {
    var p := Advance(d, ProgressOf(d, mini), speed);
    MiniOf(d, if Crosses(d, p) then Enter(d, p) else p)
  }

  /** The outcome of one stride: whether the cell is left, the cell, and the place within it. */
  ghost predicate Strode(d: Direct, pos: Pos, mini: Pos, speed: int, crossed: bool, pos': Pos, mini': Pos)
    requires 0 <= speed
  {
    && crossed == StrideCrosses(d, mini, speed)
    && mini' == StrideMini(d, mini, speed)
    && pos' == if crossed then Step(pos, d) else pos
  }

  // -------- the code

  class MoveAttr {
    var speedMod: int
    var limitCounter: int
    var direct: Direct
    var currentPos: Pos
    var currentPosMini: Pos
    var moveLine: seq<Pos>

    function State(): MoveState
      reads this
    {
      MoveState(direct, currentPos, currentPosMini, moveLine)
    }

    method NorthEastStride(currMoveSpeed: int) returns (crossPos: bool)
      requires 0 <= currMoveSpeed
      modifies this`currentPos, this`currentPosMini
      ensures Strode(NorthEast, old(currentPos), old(currentPosMini), currMoveSpeed,
                     crossPos, currentPos, currentPosMini)
    {
      crossPos := false;
      var x, y := currentPosMini.x, currentPosMini.y;
      var diffXY := x - (LENGTH_STRAIGHT - y);
      if diffXY == 0 {
        x := x + Diagonal(currMoveSpeed);
        y := y - Diagonal(currMoveSpeed);
      } else if currMoveSpeed > Abs(diffXY) {
        if diffXY > 0 { y := y - diffXY; } else { x := x - diffXY; }
        x := x + Diagonal(currMoveSpeed - Abs(diffXY));
        y := y - Diagonal(currMoveSpeed - Abs(diffXY));
      } else {
        if diffXY > 0 { y := y - currMoveSpeed; } else { x := x + currMoveSpeed; }
      }
      if x >= LENGTH_STRAIGHT {
        x := x - LENGTH_STRAIGHT;
        y := LENGTH_STRAIGHT + y;
        currentPos := Pos(currentPos.x + 1, currentPos.y - 1);
        crossPos := true;
      }
      currentPosMini := Pos(x, y);
    }

    method EastSouthStride(currMoveSpeed: int) returns (crossPos: bool)
      requires 0 <= currMoveSpeed
      modifies this`currentPos, this`currentPosMini
      ensures Strode(EastSouth, old(currentPos), old(currentPosMini), currMoveSpeed,
                     crossPos, currentPos, currentPosMini)
    {
      crossPos := false;
      var x, y := currentPosMini.x, currentPosMini.y;
      var diffXY := x - y;
      if diffXY == 0 {
        x := x + Diagonal(currMoveSpeed);
        y := y + Diagonal(currMoveSpeed);
      } else if currMoveSpeed > Abs(diffXY) {
        if diffXY > 0 { y := y + diffXY; } else { x := x - diffXY; }
        x := x + Diagonal(currMoveSpeed - Abs(diffXY));
        y := y + Diagonal(currMoveSpeed - Abs(diffXY));
      } else {
        if diffXY > 0 { y := y + currMoveSpeed; } else { x := x + currMoveSpeed; }
      }
      if x >= LENGTH_STRAIGHT {
        x := x - LENGTH_STRAIGHT;
        y := y - LENGTH_STRAIGHT;
        currentPos := Pos(currentPos.x + 1, currentPos.y + 1);
        crossPos := true;
      }
      currentPosMini := Pos(x, y);
    }

    method SouthWestStride(currMoveSpeed: int) returns (crossPos: bool)
      requires 0 <= currMoveSpeed
      modifies this`currentPos, this`currentPosMini
      ensures Strode(SouthWest, old(currentPos), old(currentPosMini), currMoveSpeed,
                     crossPos, currentPos, currentPosMini)
    {
      crossPos := false;
      var x, y := currentPosMini.x, currentPosMini.y;
      var diffXY := x - (LENGTH_STRAIGHT - y);
      if diffXY == 0 {
        x := x - Diagonal(currMoveSpeed);
        y := y + Diagonal(currMoveSpeed);
      } else if currMoveSpeed > Abs(diffXY) {
        if diffXY > 0 { x := x - diffXY; } else { y := y - diffXY; }
        x := x - Diagonal(currMoveSpeed - Abs(diffXY));
        y := y + Diagonal(currMoveSpeed - Abs(diffXY));
      } else {
        if diffXY > 0 { x := x - currMoveSpeed; } else { y := y + currMoveSpeed; }
      }
      if y >= LENGTH_STRAIGHT {
        x := LENGTH_STRAIGHT + x;
        y := y - LENGTH_STRAIGHT;
        currentPos := Pos(currentPos.x - 1, currentPos.y + 1);
        crossPos := true;
      }
      currentPosMini := Pos(x, y);
    }

    method WestNorthStride(currMoveSpeed: int) returns (crossPos: bool)
      requires 0 <= currMoveSpeed
      modifies this`currentPos, this`currentPosMini
      ensures Strode(WestNorth, old(currentPos), old(currentPosMini), currMoveSpeed,
                     crossPos, currentPos, currentPosMini)
    {
      crossPos := false;
      var x, y := currentPosMini.x, currentPosMini.y;
      var diffXY := x - y;
      if diffXY == 0 {
        x := x - Diagonal(currMoveSpeed);
        y := y - Diagonal(currMoveSpeed);
      } else if currMoveSpeed > Abs(diffXY) {
        if diffXY > 0 { x := x - diffXY; } else { y := y + diffXY; }
        x := x - Diagonal(currMoveSpeed - Abs(diffXY));
        y := y - Diagonal(currMoveSpeed - Abs(diffXY));
      } else {
        if diffXY > 0 { x := x - currMoveSpeed; } else { y := y - currMoveSpeed; }
      }
      if y < 0 {
        x := LENGTH_STRAIGHT + x;
        y := LENGTH_STRAIGHT + y;
        currentPos := Pos(currentPos.x - 1, currentPos.y - 1);
        crossPos := true;
      }
      currentPosMini := Pos(x, y);
    }

    method StraightStride(currMoveSpeed: int) returns (crossPos: bool)
      requires !IsDiagonal(direct)
      requires 0 <= currMoveSpeed
      modifies this`currentPos, this`currentPosMini
      ensures Strode(direct, old(currentPos), old(currentPosMini), currMoveSpeed, crossPos, currentPos, currentPosMini)
    {
      crossPos := false;
      var x, y := currentPosMini.x, currentPosMini.y;
      var cx, cy := currentPos.x, currentPos.y;
      match direct {
      case NoDirect | NorthEast | EastSouth | SouthWest | WestNorth =>
      case North =>
        y := y - currMoveSpeed;
        if y < 0 {
          cy := cy - 1;
          y := y + LENGTH_STRAIGHT;
          crossPos := true;
        }
      case East =>
        x := x + currMoveSpeed;
        if x >= LENGTH_STRAIGHT {
          cx := cx + 1;
          x := x - LENGTH_STRAIGHT;
          crossPos := true;
        }
      case South =>
        y := y + currMoveSpeed;
        if y >= LENGTH_STRAIGHT {
          cy := cy + 1;
          y := y - LENGTH_STRAIGHT;
          crossPos := true;
        }
      case West =>
        x := x - currMoveSpeed;
        if x < 0 {
          cx := cx - 1;
          x := x + LENGTH_STRAIGHT;
          crossPos := true;
        }
      }
      currentPosMini := Pos(x, y);
      currentPos := Pos(cx, cy);
    }

    /** The switch over the eight directions. */
    method Stride(currMoveSpeed: int) returns (crossPos: bool)
      requires 0 <= currMoveSpeed
      modifies this`currentPos, this`currentPosMini
      ensures Strode(direct, old(currentPos), old(currentPosMini), currMoveSpeed, crossPos, currentPos, currentPosMini)
    {
      match direct {
      case NorthEast => crossPos := NorthEastStride(currMoveSpeed);
      case EastSouth => crossPos := EastSouthStride(currMoveSpeed);
      case SouthWest => crossPos := SouthWestStride(currMoveSpeed);
      case WestNorth => crossPos := WestNorthStride(currMoveSpeed);
      case _ => crossPos := StraightStride(currMoveSpeed);
      }
    }

    /** One movement tick. The energy-drain loop, which comes before the step and touches neither path
        nor place, is Buffs.RoleState.DrainMana. */
    method CalculateMoveP(roles: seq<Standing>, self: int) returns (result: MoveResult)
      modifies this`direct, this`currentPos, this`currentPosMini, this`moveLine
      ensures MovesTo(old(State()), Call(speedMod, limitCounter, roles), self, State(), result)
    {
      if limitCounter > 0 {
        return NoMove;
      }
      if |moveLine| < 2 {
        return MoveError;
      }
      var currMoveSpeed := speedMod;
      if currMoveSpeed >= MAP_MAX_LINE {
        currMoveSpeed := MAP_MAX_LINE - 1;
      } else if currMoveSpeed < 0 {
        return OkMove;
      }
      var crossPos := Stride(currMoveSpeed);
      if crossPos {
        moveLine := moveLine[1..];
        var pos, shoves := AvoidOthers(roles, self, moveLine[0]);
        moveLine := [pos] + moveLine[1..];
        currentPos := pos;
        if |moveLine| > 1 {
          direct := GetDirect(moveLine[1], pos);
          if direct == NoDirect {
            return MoveError;
          }
        }
      }
      return OkMove;
    }
  }

  datatype MoveState = MoveState(direct: Direct, pos: Pos, mini: Pos, line: seq<Pos>)

  /** What one call of CalculateMoveP gets to see besides the role's movement state. */
  datatype Call = Call(speedMod: int, limitCounter: int, roles: seq<Standing>)

  predicate Moving(st: MoveState, c: Call) {
    c.limitCounter <= 0 && |st.line| >= 2 && c.speedMod >= 0
  }

  predicate Leaves(st: MoveState, c: Call) {
    Moving(st, c) && StrideCrosses(st.direct, st.mini, Capped(c.speedMod))
  }

  /** The effect of one call. */
  ghost predicate MovesTo(st: MoveState, c: Call, self: int, st': MoveState, result: MoveResult) {
    if !Moving(st, c) then
      && st' == st
      && result == if c.limitCounter > 0 then NoMove else if |st.line| < 2 then MoveError else OkMove
    else if !Leaves(st, c) then
      st' == st.(mini := StrideMini(st.direct, st.mini, Capped(c.speedMod))) && result == OkMove
    else
      exists k: nat :: Settles(c.roles, self, st.line[1], k) && EntersAt(st, c, Shoved(st.line[1], k), st', result)
  }

  ghost predicate EntersAt(st: MoveState, c: Call, q: Pos, st': MoveState, result: MoveResult)
    requires Leaves(st, c)
  {
    && st'.mini == StrideMini(st.direct, st.mini, Capped(c.speedMod))
    && st'.pos == q && st'.line == [q] + st.line[2..]
    && st'.direct == (if |st.line| > 2 then GetDirect(st.line[2], q) else st.direct)
    && result == if |st.line| > 2 && st'.direct == NoDirect then MoveError else OkMove
  }
}
