/** The search as a rule on the closed list alone: what waits follows from what has been closed, and the
    next cell closed is the one the scan picks from it. The rule leaves no choice. */
module SearchRule {
  import opened Grid
  import opened Search
  import opened PathCode

  /** The list without its first entry for the cell. */
  function Without(list: seq<PosA>, p: Pos): seq<PosA> {
    if list == [] then []
    else if list[0].node == p then list[1..]
    else [list[0]] + Without(list[1..], p)
  }

  ghost function FlagsOf(waiting: seq<PosA>, done: seq<PosA>, cur: PosA): seq<bool> {
    seq(8, k requires 0 <= k < 8 => Known(waiting, done, Step(cur.node, NEIGHBOURS[k])))
  }

  /** What waits after one more cell has been closed. */
  ghost function NextWaiting(m: PkMap, end: Pos, waiting: seq<PosA>, done: seq<PosA>, cur: PosA): seq<PosA> {
    Without(waiting + Opening(m, end, cur, FlagsOf(waiting, done, cur), |NEIGHBOURS|), cur.node)
  }

  type Rule = (seq<PosA>, seq<PosA>, PosA) -> seq<PosA>

  ghost function RuleFor(m: PkMap, end: Pos): Rule {
    (waiting: seq<PosA>, done: seq<PosA>, cur: PosA) => NextWaiting(m, end, waiting, done, cur)
  }

  /** What waits after the first n cells of the list have been closed. */
  function WaitingAt(rule: Rule, start: Pos, done: seq<PosA>, n: nat): seq<PosA>
    requires n <= |done|
  {
    if n == 0 then [StartEntry(start)]
    else rule(WaitingAt(rule, start, done, n - 1), done[..n - 1], done[n - 1])
  }

  ghost predicate Picked(waiting: seq<PosA>, cur: PosA) {
    exists at :: LastLeast(waiting, at, cur)
  }

  /** Every closed cell was the last least of those that waited. */
  ghost predicate BestFirst(rule: Rule, start: Pos, done: seq<PosA>) {
    forall i :: 0 <= i < |done| ==> Picked(WaitingAt(rule, start, done, i), done[i])
  }

  lemma PickedIsUnique(waiting: seq<PosA>, a: PosA, b: PosA)
    requires Picked(waiting, a) && Picked(waiting, b)
    ensures a == b
  {
    var i :| LastLeast(waiting, i, a);
    var j :| LastLeast(waiting, j, b);
    assert !(i < j) && !(j < i);
  }

  ghost predicate Agree(a: seq<PosA>, b: seq<PosA>, n: nat) {
    n <= |a| && n <= |b| && forall i :: 0 <= i < n ==> a[i] == b[i]
  }

  lemma {:induction false} WaitingOfPrefix(rule: Rule, start: Pos, a: seq<PosA>, b: seq<PosA>, n: nat)
    requires Agree(a, b, n)
    ensures WaitingAt(rule, start, a, n) == WaitingAt(rule, start, b, n)
  {
    if n > 0 {
      WaitingOfPrefix(rule, start, a, b, n - 1);
      assert a[..n - 1] == b[..n - 1];
    }
  }

  lemma BestFirstGrows(rule: Rule, start: Pos, done: seq<PosA>, cur: PosA)
    requires BestFirst(rule, start, done) && Picked(WaitingAt(rule, start, done, |done|), cur)
    ensures BestFirst(rule, start, done + [cur])
    ensures WaitingAt(rule, start, done + [cur], |done| + 1) == rule(WaitingAt(rule, start, done, |done|), done, cur)
  {
    var longer := done + [cur];
    forall i | 0 <= i < |longer|
      ensures Picked(WaitingAt(rule, start, longer, i), longer[i])
    {
      WaitingOfPrefix(rule, start, longer, done, i);
    }
    assert longer[..|done|] == done[..|done|] == done;
    WaitingOfPrefix(rule, start, longer, done, |done|);
  }

  /** Two searches for the same target close the same cells in the same order. */
  lemma {:induction false} SameCells(rule: Rule, start: Pos, a: seq<PosA>, b: seq<PosA>, n: nat)
    requires BestFirst(rule, start, a) && BestFirst(rule, start, b) && n <= |a| && n <= |b|
    ensures Agree(a, b, n)
  {
    if n > 0 {
      SameCells(rule, start, a, b, n - 1);
      WaitingOfPrefix(rule, start, a, b, n - 1);
      PickedIsUnique(WaitingAt(rule, start, a, n - 1), a[n - 1], b[n - 1]);
    }
  }

  /** What the steps of an iteration leave waiting is what the rule says. */
  lemma ClosedIsNext(m: PkMap, end: Pos, waiting: seq<PosA>, done: seq<PosA>, cur: PosA, at: int, known: seq<bool>)
    requires DistinctNodes(waiting) && 0 <= at < |waiting| && waiting[at] == cur
    requires FlagsKnown(waiting, done, cur, known)
    ensures waiting[..at] + waiting[at + 1..] + Opening(m, end, cur, known, |NEIGHBOURS|) ==
      NextWaiting(m, end, waiting, done, cur)
  {
    assert known == FlagsOf(waiting, done, cur);
    var grown := waiting + Opening(m, end, cur, known, |NEIGHBOURS|);
    assert grown[..at] == waiting[..at];
    assert grown[at + 1..] == waiting[at + 1..] + Opening(m, end, cur, known, |NEIGHBOURS|);
    WithoutAt(grown, at);
  }

  ghost predicate EndsAt(done: seq<PosA>, end: Pos) {
    done != [] && done[|done| - 1].node == end && forall i :: 0 <= i < |done| - 1 ==> done[i].node != end
  }

  lemma SearchIsDetermined(rule: Rule, start: Pos, end: Pos, a: seq<PosA>, b: seq<PosA>)
    requires BestFirst(rule, start, a) && BestFirst(rule, start, b) && EndsAt(a, end) && EndsAt(b, end)
    ensures a == b
  {
    var n := if |a| <= |b| then |a| else |b|;
    SameCells(rule, start, a, b, n);
    assert a[n - 1] == b[n - 1];
  }

  /** The path that the closed list holds. */
  ghost predicate PathOn(done: seq<PosA>, end: Pos, line: seq<Pos>) {
    exists at :: Chain(done, at, line, end) && at[0] == 0 && at[|at| - 1] == |done| - 1
  }

  /** Counted from its end, every chain goes through the same entries. */
  lemma {:induction false} ChainsAgree(done: seq<PosA>, end: Pos, a: seq<int>, b: seq<int>,
                                       line: seq<Pos>, other: seq<Pos>, k: nat)
    requires DistinctNodes(done) && Chain(done, a, line, end) && Chain(done, b, other, end)
    requires a[|a| - 1] == b[|b| - 1] && k < |a| && k < |b|
    ensures a[|a| - 1 - k] == b[|b| - 1 - k]
  {
    if k > 0 {
      ChainsAgree(done, end, a, b, line, other, k - 1);
      var i, j := |a| - 1 - k, |b| - 1 - k;
      assert ChildOf(done[a[i]], done[a[i + 1]], end) && ChildOf(done[b[j]], done[b[j + 1]], end);
      assert done[a[i]].node == done[a[i + 1]].parent == done[b[j]].node;
    }
  }

  lemma ChainRises(done: seq<PosA>, end: Pos, at: seq<int>, line: seq<Pos>, i: nat)
    requires Chain(done, at, line, end) && 1 <= i < |at|
    ensures at[i] > 0
  {
    var j := i - 1;
    assert 0 <= at[j] < at[j + 1];
  }

  lemma NoLongerChain(done: seq<PosA>, end: Pos, a: seq<int>, b: seq<int>, line: seq<Pos>, other: seq<Pos>)
    requires DistinctNodes(done) && Chain(done, a, line, end) && Chain(done, b, other, end)
    requires a[0] == 0 && a[|a| - 1] == b[|b| - 1]
    ensures |b| <= |a|
  {
    if |b| > |a| {
      ChainsAgree(done, end, a, b, line, other, |a| - 1);
      ChainRises(done, end, b, other, |b| - |a|);
      assert false;
    }
  }

  lemma PathIsDetermined(done: seq<PosA>, end: Pos, line: seq<Pos>, other: seq<Pos>)
    requires DistinctNodes(done) && PathOn(done, end, line) && PathOn(done, end, other)
    ensures line == other
  {
    var a :| Chain(done, a, line, end) && a[0] == 0 && a[|a| - 1] == |done| - 1;
    var b :| Chain(done, b, other, end) && b[0] == 0 && b[|b| - 1] == |done| - 1;
    NoLongerChain(done, end, a, b, line, other);
    NoLongerChain(done, end, b, a, other, line);
    forall i | 0 <= i < |line|
      ensures line[i] == other[i]
    {
      ChainsAgree(done, end, a, b, line, other, |line| - 1 - i);
    }
  }

  lemma {:induction false} WithoutSplits(a: seq<PosA>, e: PosA, b: seq<PosA>)
    requires !Listed(a, e.node)
    ensures Without(a + [e] + b, e.node) == a + b
  {
    if a == [] {
      assert a + [e] + b == [e] + b;
    } else {
      var list := a + [e] + b;
      assert list[1..] == a[1..] + [e] + b && list[0] == a[0];
      assert a[0].node != e.node;
      TailNotListed(a, e.node);
      WithoutSplits(a[1..], e, b);
    }
  }

  lemma TailNotListed(a: seq<PosA>, p: Pos)
    requires a != [] && !Listed(a, p)
    ensures !Listed(a[1..], p)
  {
    assert forall i :: 0 <= i < |a[1..]| ==> a[1..][i] == a[i + 1];
  }

  /** MoveToDone takes out the first entry of the cell. */
  lemma WithoutAt(list: seq<PosA>, at: int)
    requires 0 <= at < |list| && !Listed(list[..at], list[at].node)
    ensures Without(list, list[at].node) == list[..at] + list[at + 1..]
  {
    assert list == list[..at] + [list[at]] + list[at + 1..];
    WithoutSplits(list[..at], list[at], list[at + 1..]);
  }
}
