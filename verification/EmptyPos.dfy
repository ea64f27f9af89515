/** GetEmptyPos: the walkable cell that stands in for a blocked one. */
module EmptyPos {
  import opened Grid

  const RAY_LENGTH := 3
  const MAX_CIRCLE := 4

  /** The k-th cell ahead is the first usable one: all cells before it are on the map and blocked. */
  ghost predicate FirstAhead(m: PkMap, c: Pos, d: Direct, k: nat) {
    && 1 <= k <= RAY_LENGTH
    && Walkable(m, Shift(c, d, k))
    && forall j: nat :: 1 <= j < k ==> InBounds(Shift(c, d, j)) && !Walkable(m, Shift(c, d, j))
  }

  /** A walkable cell other than the centre in the square of the given radius. */
  ghost predicate Near(m: PkMap, c: Pos, q: Pos, radius: int) {
    q != c && Walkable(m, q) && Chebyshev(c, q) <= radius
  }

  /** r is a nearest cell, and the first of the nearest ones in column-major order. */
  ghost predicate Nearest(m: PkMap, c: Pos, r: Pos) {
    && Near(m, c, r, MAX_CIRCLE)
    && forall q :: Near(m, c, q, MAX_CIRCLE) ==>
         || Chebyshev(c, r) < Chebyshev(c, q)
         || (Chebyshev(c, r) == Chebyshev(c, q) && (r.x < q.x || (r.x == q.x && r.y <= q.y)))
  }

  /** What GetEmptyPos promises: the first free cell of the forward ray, else the nearest free
      cell, else the cell it was given. */
  ghost predicate Substitutes(m: PkMap, c: Pos, d: Direct, r: Pos) {
    || (exists k: nat :: FirstAhead(m, c, d, k) && r == Shift(c, d, k))
    || ((forall k: nat :: !FirstAhead(m, c, d, k)) && Nearest(m, c, r))
    || ((forall k: nat :: !FirstAhead(m, c, d, k)) && (forall q :: !Near(m, c, q, MAX_CIRCLE)) && r == c)
  }

  /** The promise leaves no choice: it determines the cell. */
  lemma SubstituteIsUnique(m: PkMap, c: Pos, d: Direct, r: Pos, s: Pos)
    requires Substitutes(m, c, d, r) && Substitutes(m, c, d, s)
    ensures r == s
  {
    if k: nat, l: nat :|
      FirstAhead(m, c, d, k) && r == Shift(c, d, k) && FirstAhead(m, c, d, l) && s == Shift(c, d, l)
    {
      assert !(k < l) && !(l < k);
    }
  }

  lemma ShiftDistance(c: Pos, d: Direct, k: nat)
    ensures Chebyshev(c, Shift(c, d, k)) <= k
  {
  }

  /** The substitute is free unless nothing ahead or within four cells is free. */
  lemma SubstituteIsFree(m: PkMap, c: Pos, d: Direct, r: Pos)
    requires Substitutes(m, c, d, r) && !Walkable(m, c)
    ensures Walkable(m, r) || r == c
    ensures Walkable(m, r) <==>
      (exists k: nat :: FirstAhead(m, c, d, k)) || (exists q :: Near(m, c, q, MAX_CIRCLE))
    ensures Chebyshev(c, r) <= MAX_CIRCLE
  {
    if k: nat :| FirstAhead(m, c, d, k) {
      ShiftDistance(c, d, k);
    }
    if Nearest(m, c, r) {
      assert Near(m, c, r, MAX_CIRCLE);
    }
  }

  /** The ray is given up after i blocked cells: at its end, or where it leaves the map. */
  lemma NothingAhead(m: PkMap, c: Pos, d: Direct, i: int)
    requires 0 <= i <= RAY_LENGTH && (i < RAY_LENGTH ==> !InBounds(Shift(c, d, i + 1)))
    requires forall j: nat :: 1 <= j <= i ==> !Walkable(m, Shift(c, d, j))
    ensures forall k: nat :: !FirstAhead(m, c, d, k)
  {
    forall k: nat
      ensures !FirstAhead(m, c, d, k)
    {
      if k > i + 1 && i < RAY_LENGTH {
        assert !InBounds(Shift(c, d, i + 1));
      }
    }
  }

  lemma NearestIsFirstOfCircle(m: PkMap, c: Pos, r: Pos, circle: int, scanned: int)
    requires 1 <= circle <= MAX_CIRCLE && scanned == circle - 1
    requires forall q :: !Near(m, c, q, scanned)
    requires Near(m, c, r, circle)
    requires forall q :: Near(m, c, q, circle) ==> r.x < q.x || (r.x == q.x && r.y <= q.y)
    ensures Nearest(m, c, r)
  {
    assert !Near(m, c, r, scanned);
    forall q | Near(m, c, q, MAX_CIRCLE)
      ensures Chebyshev(c, r) < Chebyshev(c, q) ||
        (Chebyshev(c, r) == Chebyshev(c, q) && (r.x < q.x || (r.x == q.x && r.y <= q.y)))
    {
      assert !Near(m, c, q, scanned);
      if Chebyshev(c, q) <= circle {
        assert Near(m, c, q, circle);
      }
    }
  }

  /** The first free cell of the square of one radius, column by column, if it has any. */
  method ScanCircle(m: PkMap, c: Pos, circle: int) returns (found: bool, result: Pos)
    requires 1 <= circle
    ensures found ==> Near(m, c, result, circle)
    ensures found ==> forall q :: Near(m, c, q, circle) ==>
      result.x < q.x || (result.x == q.x && result.y <= q.y)
    ensures !found ==> forall q :: !Near(m, c, q, circle)
  {
    result := c;
    var xloop := c.x - circle;
    while xloop < c.x + circle + 1
      invariant c.x - circle <= xloop <= c.x + circle + 1
      invariant forall q :: Near(m, c, q, circle) ==> xloop <= q.x
    {
      var yloop := c.y - circle;
      while yloop < c.y + circle + 1
        invariant c.y - circle <= yloop <= c.y + circle + 1
        invariant forall q :: Near(m, c, q, circle) ==> xloop < q.x || (xloop == q.x && yloop <= q.y)
      {
        if !(xloop == c.x && yloop == c.y) && InBounds(Pos(xloop, yloop)) && m[yloop][xloop] != 0 {
          return true, Pos(xloop, yloop);
        }
        yloop := yloop + 1;
      }
      xloop := xloop + 1;
    }
    return false, c;
  }

  /** The forward search: up to three cells, given up at the edge of the map. */
  method LookAhead(m: PkMap, c: Pos, direct: Direct) returns (found: bool, result: Pos)
    ensures found ==> exists k: nat :: FirstAhead(m, c, direct, k) && result == Shift(c, direct, k)
    ensures !found ==> forall k: nat :: !FirstAhead(m, c, direct, k)
  {
    var offsetX, offsetY := OffsetX(direct), OffsetY(direct);
    result := c;
    var i: nat := 0;
    while i < RAY_LENGTH
      invariant 0 <= i <= RAY_LENGTH
      invariant result == Shift(c, direct, i)
      invariant forall j: nat :: 1 <= j <= i ==>
        InBounds(Shift(c, direct, j)) && !Walkable(m, Shift(c, direct, j))
    {
      result := Pos(result.x + offsetX, result.y + offsetY);
      if !InBounds(result) {
        break;
      }
      if m[result.y][result.x] != 0 {
        assert FirstAhead(m, c, direct, i + 1);
        return true, result;
      }
      i := i + 1;
    }
    NothingAhead(m, c, direct, i);
    return false, result;
  }

  method GetEmptyPos(m: PkMap, currX: int, currY: int, direct: Direct) returns (result: Pos)
    ensures Substitutes(m, Pos(currX, currY), direct, result)
  {
    var c := Pos(currX, currY);
    var ahead;
    ahead, result := LookAhead(m, c, direct);
    if ahead {
      return;
    }
    ghost var scanned := 0;
    var circle := 1;
    while circle < MAX_CIRCLE + 1
      invariant scanned == circle - 1 && 0 <= scanned <= MAX_CIRCLE
      invariant forall q :: !Near(m, c, q, scanned)
    {
      var found, r := ScanCircle(m, c, circle);
      if found {
        NearestIsFirstOfCircle(m, c, r, circle, scanned);
        return r;
      }
      scanned := circle;
      circle := circle + 1;
    }
    return c;
  }
}
