/** The battle map of the combat server: cells, the eight directions, and the 10/14 step costs. */
module Grid {

  const MAP_SIZE_X := 50
  const MAP_SIZE_Y := 29
  /** Rows above this one are never walkable; see InitMap. */
  const FORBIDDEN_Y := 5
  /** The cut-off of the search, and the limit no speed reaches. */
  const MAP_MAX_LINE := 1000

  datatype Pos = Pos(x: int, y: int)

  /** The eight DIRECT_ codes, in the order in which AStar opens the neighbours of a cell;
      NoDirect is the code 0. */
  datatype Direct =
    NoDirect | North | NorthEast | East | EastSouth | South | SouthWest | West | WestNorth

  /** pk_map_base: rows of cells, 0 where nobody can walk. */
  type PkMap = m: seq<seq<int>> |
    |m| == MAP_SIZE_Y && forall y :: 0 <= y < MAP_SIZE_Y ==> |m[y]| == MAP_SIZE_X
    witness seq(MAP_SIZE_Y, _ => seq(MAP_SIZE_X, _ => 0))

  predicate InBounds(p: Pos) {
    0 <= p.x < MAP_SIZE_X && 0 <= p.y < MAP_SIZE_Y
  }

  predicate Walkable(m: PkMap, p: Pos) {
    InBounds(p) && m[p.y][p.x] != 0
  }

  function OffsetX(d: Direct): int {
    match d
    case NorthEast | East | EastSouth => 1
    case SouthWest | West | WestNorth => -1
    case _ => 0
  }

  function OffsetY(d: Direct): int {
    match d
    case EastSouth | South | SouthWest => 1
    case North | NorthEast | WestNorth => -1
    case _ => 0
  }

  function Step(p: Pos, d: Direct): Pos {
    Pos(p.x + OffsetX(d), p.y + OffsetY(d))
  }

  function Shift(p: Pos, d: Direct, steps: nat): Pos {
    if steps == 0 then p else Step(Shift(p, d, steps - 1), d)
  }

  function StepCost(d: Direct): int {
    match d
    case NoDirect => 0
    case North | East | South | West => 10
    case _ => 14
  }

  /** getDirect: the direction of `to` as seen from `from`, by the signs of the two differences. */
  function GetDirect(to: Pos, from: Pos): Direct {
    if to.x > from.x then
      if to.y > from.y then EastSouth else if to.y < from.y then NorthEast else East
    else if to.x < from.x then
      if to.y > from.y then SouthWest else if to.y < from.y then WestNorth else West
    else
      if to.y > from.y then South else if to.y < from.y then North else NoDirect
  }

  function Abs(i: int): nat {
    if i < 0 then -i else i
  }

  function Max(a: int, b: int): int {
    if a < b then b else a
  }

  function Min(a: int, b: int): int {
    if a < b then a else b
  }

  function Manhattan(a: Pos, b: Pos): nat {
    Abs(a.x - b.x) + Abs(a.y - b.y)
  }

  function Chebyshev(a: Pos, b: Pos): nat {
    Max(Abs(a.x - b.x), Abs(a.y - b.y))
  }

  /** What a king on an empty board pays between two cells: 14 a diagonal step, 10 a straight one. */
  function Octile(a: Pos, b: Pos): nat {
    10 * Chebyshev(a, b) + 4 * Min(Abs(a.x - b.x), Abs(a.y - b.y))
  }

  predicate KingMove(a: Pos, b: Pos) {
    a != b && Abs(a.x - b.x) <= 1 && Abs(a.y - b.y) <= 1
  }

  ghost predicate KingPath(line: seq<Pos>) {
    line != [] && forall i :: 0 <= i < |line| - 1 ==> KingMove(line[i], line[i + 1])
  }

  /** A path on which one can walk: the first cell is where one stands, all others must be free. */
  ghost predicate WalkablePath(m: PkMap, line: seq<Pos>) {
    KingPath(line) && forall i :: 1 <= i < |line| ==> Walkable(m, line[i])
  }

  ghost predicate Joins(line: seq<Pos>, start: Pos, end: Pos) {
    line != [] && line[0] == start && line[|line| - 1] == end
  }

  ghost predicate Distinct<T>(s: seq<T>) {
    forall i, j :: 0 <= i < j < |s| ==> s[i] != s[j]
  }

  /** The 10/14 costs of all steps of a path. */
  ghost function PathCost(line: seq<Pos>): int {
    if |line| < 2 then 0 else StepCost(GetDirect(line[1], line[0])) + PathCost(line[1..])
  }

  /** The direction function inverts a step: a king move is the step in its direction. */
  lemma KingMoveIsStep(a: Pos, b: Pos)
    ensures KingMove(a, b) <==> exists d: Direct :: d != NoDirect && b == Step(a, d)
    ensures KingMove(a, b) ==> b == Step(a, GetDirect(b, a)) && GetDirect(b, a) != NoDirect
  {
    if KingMove(a, b) {
      var d := GetDirect(b, a);
      assert d != NoDirect && b == Step(a, d);
    }
  }

  lemma DirectOfStep(p: Pos, d: Direct)
    ensures GetDirect(Step(p, d), p) == d
  {
  }

  /** On any board, walls or not, no king path is cheaper than the octile distance. */
  lemma {:induction false} OctileIsLowerBound(line: seq<Pos>)
    requires KingPath(line)
    ensures PathCost(line) >= Octile(line[0], line[|line| - 1])
  {
    if |line| >= 2 {
      assert KingMove(line[0], line[1]);
      assert KingPath(line[1..]) by {
        assert forall i :: 0 <= i < |line| - 2 ==> line[1..][i] == line[i + 1] && KingMove(line[i + 1], line[i + 2]);
      }
      OctileIsLowerBound(line[1..]);
      OctileStep(line[0], line[1], line[|line| - 1]);
    }
  }

  /** A single move brings the octile distance down by no more than it costs. */
  lemma OctileStep(a: Pos, b: Pos, c: Pos)
    requires KingMove(a, b)
    ensures Octile(a, c) <= StepCost(GetDirect(b, a)) + Octile(b, c)
  {
  }

  /** The map that PK_PE::Init leaves behind: everything from row FORBIDDEN_Y down is walkable. */
  predicate IsOpenField(m: PkMap) {
    forall x, y :: 0 <= x < MAP_SIZE_X && 0 <= y < MAP_SIZE_Y ==> (m[y][x] != 0 <==> y >= FORBIDDEN_Y)
  }

  /** The constructor clears the map, then Init marks every cell below the forbidden rows. */
  method InitMap(base: array2<int>) returns (m: PkMap)
    requires base.Length0 == MAP_SIZE_Y && base.Length1 == MAP_SIZE_X
    modifies base
    ensures IsOpenField(m)
    ensures forall y, x :: 0 <= y < MAP_SIZE_Y && 0 <= x < MAP_SIZE_X ==> base[y, x] == m[y][x]
  {
    forall y, x | 0 <= y < MAP_SIZE_Y && 0 <= x < MAP_SIZE_X {
      base[y, x] := 0;
    }
    var row := FORBIDDEN_Y;
    while row < MAP_SIZE_Y
      invariant FORBIDDEN_Y <= row <= MAP_SIZE_Y
      invariant forall y, x :: 0 <= y < MAP_SIZE_Y && 0 <= x < MAP_SIZE_X ==>
        base[y, x] == if FORBIDDEN_Y <= y < row then 1 else 0
    {
      var col := 0;
      while col < MAP_SIZE_X
        invariant 0 <= col <= MAP_SIZE_X
        invariant forall y, x :: 0 <= y < MAP_SIZE_Y && 0 <= x < MAP_SIZE_X ==>
          base[y, x] == if FORBIDDEN_Y <= y < row || (y == row && x < col) then 1 else 0
      {
        base[row, col] := 1;
        col := col + 1;
      }
      row := row + 1;
    }
    m := seq(MAP_SIZE_Y, y requires 0 <= y < MAP_SIZE_Y reads base =>
      seq(MAP_SIZE_X, x requires 0 <= x < MAP_SIZE_X reads base => base[y, x]));
  }
}
