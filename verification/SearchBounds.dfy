/** How long the search can run, what an exhausted search means, and how it behaves on the map that
    Init builds. */
module SearchBounds {
  import opened Grid
  import opened Search

  // -------- termination: closed cells are distinct cells of the map

  function CellNumber(p: Pos): int {
    p.y * MAP_SIZE_X + p.x
  }

  lemma {:induction false} DistinctNumbersFit(numbers: seq<int>, n: nat)
    requires forall i :: 0 <= i < |numbers| ==> 0 <= numbers[i] < n
    requires Distinct(numbers)
    ensures |numbers| <= n
    decreases n
  {
    var first := if numbers == [] then 0 else numbers[0];
    if n == 0 {
    } else if i :| 0 <= i < |numbers| && numbers[i] == n - 1 {
      var rest := numbers[..i] + numbers[i + 1..];
      assert forall k :: 0 <= k < |rest| ==> rest[k] == numbers[if k < i then k else k + 1];
      DistinctNumbersFit(rest, n - 1);
    } else {
      DistinctNumbersFit(numbers, n - 1);
    }
  }

  lemma DistinctCellsFit(list: seq<PosA>)
    requires DistinctNodes(list)
    requires forall i :: 0 <= i < |list| ==> InBounds(list[i].node)
    ensures |list| <= MAP_SIZE_X * MAP_SIZE_Y
  {
    var numbers := seq(|list|, i requires 0 <= i < |list| => CellNumber(list[i].node));
    forall i, j | 0 <= i < j < |list|
      ensures numbers[i] != numbers[j]
    {
      assert list[i].node != list[j].node;
    }
    DistinctNumbersFit(numbers, MAP_SIZE_X * MAP_SIZE_Y);
  }

  // -------- completeness: nothing is left out when the open list runs dry

  ghost predicate Meets(list: seq<PosA>, line: seq<Pos>) {
    exists i :: 0 <= i < |line| && Listed(list, line[i])
  }

  /** The waiting cells fence in the closed ones: a walk from the start ends on a closed cell, or has
      come by a waiting one. */
  lemma {:induction false} WaitingFencesIn(m: PkMap, start: Pos, waiting: seq<PosA>, done: seq<PosA>, line: seq<Pos>)
    requires Expanded(m, waiting, done) && Listed(done, start)
    requires WalkablePath(m, line) && line[0] == start
    ensures Listed(done, line[|line| - 1]) || Meets(waiting, line)
  {
    if |line| >= 2 {
      var shorter := line[..|line| - 1];
      assert WalkablePath(m, shorter) by {
        assert forall i :: 0 <= i < |shorter| - 1 ==> KingMove(line[i], line[i + 1]);
      }
      WaitingFencesIn(m, start, waiting, done, shorter);
      if Meets(waiting, shorter) {
        var i :| 0 <= i < |shorter| && Listed(waiting, shorter[i]);
        assert Listed(waiting, line[i]);
      } else {
        var a, b := line[|line| - 2], line[|line| - 1];
        assert KingMove(a, b) && Walkable(m, b);
        KingMoveIsStep(a, b);
        var i :| 0 <= i < |done| && done[i].node == a;
        assert Known(waiting, done, Step(done[i].node, GetDirect(b, a)));
      }
    }
  }

  // -------- the open field: the search heads straight for the target

  /** On the open field the current cell always lies on a cheapest path, nothing seen is closer to
      the target, and nothing waiting promises less. */
  ghost predicate Heading(start: Pos, end: Pos, waiting: seq<PosA>, done: seq<PosA>, cur: PosA) {
    && cur.f + Octile(cur.node, end) == Octile(start, end)
    && (forall i :: 0 <= i < |waiting| ==> Chebyshev(waiting[i].node, end) >= Chebyshev(cur.node, end))
    && (forall i :: 0 <= i < |done| ==> Chebyshev(done[i].node, end) >= Chebyshev(cur.node, end))
    && (forall i :: 0 <= i < |waiting| ==> waiting[i].g >= cur.g)
    && (cur == StartEntry(start) || cur.g == cur.f + 10 * Manhattan(cur.node, end))
  }

  /** The step towards the target is one cell closer, pays for itself, and costs strictly less by
      the estimate than any other step. */
  lemma StepTowards(p: Pos, end: Pos)
    requires p != end
    ensures var n := Step(p, GetDirect(end, p));
      && GetDirect(end, p) != NoDirect
      && Chebyshev(n, end) == Chebyshev(p, end) - 1
      && StepCost(GetDirect(end, p)) + Octile(n, end) == Octile(p, end)
      && StepCost(GetDirect(end, p)) + 10 * Manhattan(n, end) <= 10 * Manhattan(p, end)
  {
  }

  lemma OtherStepsAreWorse(p: Pos, end: Pos, d: Direct)
    requires p != end && d != NoDirect && d != GetDirect(end, p)
    ensures StepCost(d) + 10 * Manhattan(Step(p, d), end) >
      StepCost(GetDirect(end, p)) + 10 * Manhattan(Step(p, GetDirect(end, p)), end)
    ensures Chebyshev(Step(p, d), end) >= Chebyshev(p, end) - 1
  {
  }

  lemma OpenFieldStep(m: PkMap, p: Pos, end: Pos)
    requires IsOpenField(m) && Walkable(m, p) && Walkable(m, end) && p != end
    ensures Walkable(m, Step(p, GetDirect(end, p)))
  {
  }

  /** What opening does on the open field: the step towards the target is opened, and beats
      everything else that is opened. */
  lemma OpeningTowards(m: PkMap, end: Pos, cur: PosA, flags: seq<bool>, waiting: seq<PosA>, done: seq<PosA>)
    returns (j: int)
    requires FlagsKnown(waiting, done, cur, flags)
    requires IsOpenField(m) && Walkable(m, cur.node) && Walkable(m, end) && cur.node != end
    requires forall i :: 0 <= i < |waiting| ==> Chebyshev(waiting[i].node, end) >= Chebyshev(cur.node, end)
    requires forall i :: 0 <= i < |done| ==> Chebyshev(done[i].node, end) >= Chebyshev(cur.node, end)
    ensures var pushed := Opening(m, end, cur, flags, |NEIGHBOURS|);
      var best := Child(cur, GetDirect(end, cur.node), end);
      && 0 <= j < |pushed| && pushed[j] == best
      && forall i :: 0 <= i < |pushed| ==>
           && Chebyshev(pushed[i].node, end) >= Chebyshev(best.node, end)
           && (pushed[i] == best || pushed[i].g > best.g)
  {
    var pushed := Opening(m, end, cur, flags, |NEIGHBOURS|);
    var straight := GetDirect(end, cur.node);
    var best := Child(cur, straight, end);
    StepTowards(cur.node, end);
    OpenFieldStep(m, cur.node, end);
    assert !Known(waiting, done, best.node);
    var k := NeighbourIndex(straight);
    j := ChildIsOpening(m, end, cur, flags, |NEIGHBOURS|, k);
    forall i | 0 <= i < |pushed|
      ensures Chebyshev(pushed[i].node, end) >= Chebyshev(best.node, end)
      ensures pushed[i] == best || pushed[i].g > best.g
    {
      var l := OpeningIsChild(m, end, cur, flags, |NEIGHBOURS|, i);
      if NEIGHBOURS[l] != straight {
        OtherStepsAreWorse(cur.node, end, NEIGHBOURS[l]);
      }
    }
  }

  /** The scan prefers later entries: a new entry that nothing beats is picked over older equals. */
  lemma BestIsPicked(rest: seq<PosA>, pushed: seq<PosA>, best: PosA, j: int, next: PosA, to: int)
    requires forall i :: 0 <= i < |rest| ==> rest[i].g >= best.g
    requires forall i :: 0 <= i < |pushed| ==> pushed[i] == best || pushed[i].g > best.g
    requires 0 <= j < |pushed| && pushed[j] == best
    requires LastLeast(rest + pushed, to, next)
    ensures next == best
  {
    assert (rest + pushed)[|rest| + j] == best;
    assert to >= |rest|;
  }

  /** One iteration on the open field: the scan that follows picks the step towards the target. */
  lemma HeadingStep(start: Pos, end: Pos, waiting: seq<PosA>, done: seq<PosA>, cur: PosA, at: int,
                    pushed: seq<PosA>, j: int, next: PosA, to: int)
    requires 0 <= at < |waiting| && waiting[at] == cur && cur.node != end
    requires cur == StartEntry(start) ==> |waiting| == 1
    requires Heading(start, end, waiting, done, cur)
    requires var best := Child(cur, GetDirect(end, cur.node), end);
      && 0 <= j < |pushed| && pushed[j] == best
      && forall i :: 0 <= i < |pushed| ==>
           && Chebyshev(pushed[i].node, end) >= Chebyshev(best.node, end)
           && (pushed[i] == best || pushed[i].g > best.g)
    requires LastLeast(waiting[..at] + waiting[at + 1..] + pushed, to, next)
    ensures Heading(start, end, waiting[..at] + waiting[at + 1..] + pushed, done + [cur], next)
    ensures next == Child(cur, GetDirect(end, cur.node), end)
  {
    var rest := waiting[..at] + waiting[at + 1..];
    var best := Child(cur, GetDirect(end, cur.node), end);
    StepTowards(cur.node, end);
    assert forall i :: 0 <= i < |rest| ==> rest[i] in waiting;
    assert forall i :: 0 <= i < |rest| ==>
      (rest[i].g >= best.g && Chebyshev(rest[i].node, end) >= Chebyshev(best.node, end));
    BestIsPicked(rest, pushed, best, j, next, to);
  }

  /** The entries from the start on, each opened by the step towards the target from the one before. */
  ghost predicate Course(start: Pos, end: Pos, list: seq<PosA>) {
    && list != [] && list[0] == StartEntry(start)
    && forall i :: 0 <= i < |list| - 1 ==>
         list[i].node != end && list[i + 1] == Child(list[i], GetDirect(end, list[i].node), end)
  }

  lemma CourseGrows(start: Pos, end: Pos, list: seq<PosA>, next: PosA)
    requires Course(start, end, list) && list[|list| - 1].node != end
    requires next == Child(list[|list| - 1], GetDirect(end, list[|list| - 1].node), end)
    ensures Course(start, end, list + [next])
  {
  }

  /** The estimate of a cell on a cheapest path stays below the cut-off on a map of this size. */
  lemma HeadingIsNotTooFar(start: Pos, end: Pos, waiting: seq<PosA>, done: seq<PosA>, cur: PosA)
    requires InBounds(start) && InBounds(end) && InBounds(cur.node)
    requires Heading(start, end, waiting, done, cur)
    ensures cur.g < MAP_MAX_LINE
  {
  }
}
