/** Log::write_log and Log::shift_files: a log kept in a limited number of files. */
module LogRotation {

  type Line = string

  const LOG_FATAL := 0
  const LOG_ERROR := 1
  const LOG_NORMAL := 2
  const LOG_DEBUG := 3
  const LOG_VERBOSE := 4

  /** The name of a log without index and extension; there is one for each known level, and for some
      levels one a day. */
  datatype BaseName = NoName | Undated(kind: int) | Dated(kind: int, date: string)

  function LogFileName(lvl: int, date: string): BaseName {
    if lvl == LOG_DEBUG || lvl == LOG_VERBOSE then Undated(lvl)
    else if LOG_FATAL <= lvl <= LOG_NORMAL then Dated(lvl, date)
    else NoName
  }

  /** Known levels never share a name, and of one level only those that are not kept by the day do. */
  lemma NamesTellApart(l: int, m: int, d: string, e: string)
    requires LogFileName(l, d) == LogFileName(m, e) != NoName
    ensures l == m && (l == LOG_FATAL || l == LOG_ERROR || l == LOG_NORMAL ==> d == e)
  {
  }

  datatype Entry = Entry(lvl: int, date: string, line: Line)

  /** Levels from the limit on are not logged, and unknown ones have no file. */
  predicate Goes(e: Entry, level: int, name: BaseName) {
    e.lvl < level && LogFileName(e.lvl, e.date) == name != NoName
  }

  /** The bytes of a file: every line ends with a newline. */
  function Size(lines: seq<Line>): nat {
    if lines == [] then 0 else |lines[0]| + 1 + Size(lines[1..])
  }

  /** A file that is not there reads as empty. */
  function Lines(files: map<int, seq<Line>>, i: int): seq<Line> {
    if i in files then files[i] else []
  }

  /** The files below index n, read from the highest index down to 0. */
  function ReadBack(files: map<int, seq<Line>>, n: nat): seq<Line> {
    if n == 0 then [] else Lines(files, n - 1) + ReadBack(files, n - 1)
  }

  /** A file that was below the limit when its last line was written. */
  predicate WithinLimit(lines: seq<Line>, maxLogSize: int) {
    lines != [] && (|lines| == 1 || Size(lines[..|lines| - 1]) < maxLogSize)
  }

  predicate Rotates(files: map<int, seq<Line>>, maxLogSize: int) {
    0 in files && Size(files[0]) >= maxLogSize
  }

  /** What is still readable after a write: a rotation costs the oldest file, nothing else does. */
  function AfterWrite(files: map<int, seq<Line>>, maxLogSize: int, maxLogNum: nat, line: Line): seq<Line>
    requires maxLogNum >= 1
  {
    ReadBack(files, if Rotates(files, maxLogSize) then maxLogNum - 1 else maxLogNum) + [line]
  }

  ghost predicate Suffix<T>(s: seq<T>, t: seq<T>) {
    |s| <= |t| && s == t[|t| - |s|..]
  }

  /** The files after a rotation: the oldest is gone, all others have moved up by one. */
  ghost predicate Rotated(before: map<int, seq<Line>>, after: map<int, seq<Line>>, maxLogNum: nat) {
    && (forall i :: i in after <==> 1 <= i < maxLogNum && i - 1 in before)
    && forall i :: i in after ==> after[i] == before[i - 1]
  }

  /** Half-way: the files above index i + 1 have moved up, and nothing is at i + 1. */
  ghost predicate HalfRotated(before: map<int, seq<Line>>, files: map<int, seq<Line>>, i: int, maxLogNum: nat) {
    && (forall j :: j in files <==> 0 <= j < maxLogNum && j != i + 1 && Source(i, j) in before)
    && forall j :: j in files ==> files[j] == before[Source(i, j)]
  }

  function Source(i: int, j: int): int {
    if j <= i then j else j - 1
  }

  lemma RotationBegins(before: map<int, seq<Line>>, maxLogNum: nat)
    requires maxLogNum >= 1 && forall i :: i in before ==> 0 <= i < maxLogNum
    ensures HalfRotated(before, before - {maxLogNum - 1}, maxLogNum - 2, maxLogNum)
  {
    var last := maxLogNum - 2;
    assert forall j :: 0 <= j <= last ==> Source(last, j) == j;
  }

  lemma RotationEnds(before: map<int, seq<Line>>, files: map<int, seq<Line>>, maxLogNum: nat)
    requires HalfRotated(before, files, -1, maxLogNum)
    ensures Rotated(before, files, maxLogNum)
  {
    assert forall j :: 0 <= j ==> Source(-1, j) == j - 1;
  }

  lemma RotateOne(before: map<int, seq<Line>>, files: map<int, seq<Line>>, i: int, maxLogNum: nat)
    requires HalfRotated(before, files, i, maxLogNum) && 0 <= i <= maxLogNum - 2
    ensures i + 1 !in files
    ensures i in files ==> HalfRotated(before, (files - {i})[i + 1 := files[i]], i - 1, maxLogNum)
    ensures i !in files ==> HalfRotated(before, files, i - 1, maxLogNum)
  {
    assert i in files <==> Source(i, i) in before;
    assert forall j :: j != i && j != i + 1 ==> Source(i, j) == Source(i - 1, j);
    assert Source(i - 1, i + 1) == i;
  }

  lemma {:induction false} RotatedReads(before: map<int, seq<Line>>, after: map<int, seq<Line>>, maxLogNum: nat, n: nat)
    requires Rotated(before, after, maxLogNum) && n + 1 <= maxLogNum
    ensures ReadBack(after, n + 1) == ReadBack(before, n)
  {
    if n > 0 {
      RotatedReads(before, after, maxLogNum, n - 1);
      assert Lines(after, n) == Lines(before, n - 1);
    } else {
      assert Lines(after, 0) == [];
    }
  }

  /** All files but the oldest hold the end of what all files hold. */
  lemma OldestDropped(files: map<int, seq<Line>>, n: nat)
    requires n >= 1
    ensures ReadBack(files, n) == Lines(files, n - 1) + ReadBack(files, n - 1)
    ensures Suffix(ReadBack(files, n - 1), ReadBack(files, n))
  {
  }

  lemma {:induction false} AppendReads(files: map<int, seq<Line>>, line: Line, n: nat)
    requires n >= 1
    ensures ReadBack(files[0 := Lines(files, 0) + [line]], n) == ReadBack(files, n) + [line]
  {
    if n > 1 {
      AppendReads(files, line, n - 1);
      assert Lines(files[0 := Lines(files, 0) + [line]], n - 1) == Lines(files, n - 1);
    }
  }

  lemma SuffixOfAppended<T>(s: seq<T>, t: seq<T>, x: T)
    requires Suffix(s, t)
    ensures Suffix(s + [x], t + [x])
  {
  }

  lemma SuffixOfSuffix<T>(r: seq<T>, s: seq<T>, t: seq<T>)
    requires Suffix(r, s) && Suffix(s, t)
    ensures Suffix(r, t)
  {
  }

  lemma StaysWithinLimit(was: map<int, seq<Line>>, files: map<int, seq<Line>>, maxLogSize: int, maxLogNum: nat,
                         line: Line)
    requires forall i :: i in was ==> 0 <= i < maxLogNum && WithinLimit(was[i], maxLogSize)
    requires maxLogNum >= 1
    requires if Rotates(was, maxLogSize) then Rotated(was, files, maxLogNum) else files == was
    ensures var after := files[0 := Lines(files, 0) + [line]];
      forall i :: i in after ==> 0 <= i < maxLogNum && WithinLimit(after[i], maxLogSize)
  {
    var zero := Lines(files, 0);
    assert (zero + [line])[..|zero|] == zero;
  }

  /** What the files hold after the shift. */
  lemma ShiftReads(was: map<int, seq<Line>>, files: map<int, seq<Line>>, maxLogSize: int, maxLogNum: nat)
    requires maxLogNum >= 1
    requires if Rotates(was, maxLogSize) then Rotated(was, files, maxLogNum) else files == was
    ensures ReadBack(files, maxLogNum) ==
      ReadBack(was, if Rotates(was, maxLogSize) then maxLogNum - 1 else maxLogNum)
    ensures Suffix(ReadBack(files, maxLogNum), ReadBack(was, maxLogNum))
  {
    OldestDropped(was, maxLogNum);
    if Rotates(was, maxLogSize) {
      RotatedReads(was, files, maxLogNum, maxLogNum - 1);
    }
  }

  lemma WriteReads(was: map<int, seq<Line>>, files: map<int, seq<Line>>, maxLogSize: int, maxLogNum: nat,
                   line: Line, history: seq<Line>)
    requires maxLogNum >= 1 && Suffix(ReadBack(was, maxLogNum), history)
    requires if Rotates(was, maxLogSize) then Rotated(was, files, maxLogNum) else files == was
    ensures var after := files[0 := Lines(files, 0) + [line]];
      && ReadBack(after, maxLogNum) == AfterWrite(was, maxLogSize, maxLogNum, line)
      && Suffix(ReadBack(after, maxLogNum), history + [line])
  {
    var kept := ReadBack(files, maxLogNum);
    ShiftReads(was, files, maxLogSize, maxLogNum);
    SuffixOfSuffix(kept, ReadBack(was, maxLogNum), history);
    AppendReads(files, line, maxLogNum);
    SuffixOfAppended(kept, history, line);
  }

  /** No file has been rotated before it was full, and none is missing in between. */
  ghost predicate Ripe(files: map<int, seq<Line>>, maxLogSize: int) {
    forall i :: i in files && i > 0 ==> Size(files[i]) >= maxLogSize && i - 1 in files
  }

  /** What n full files hold at least. */
  function FullSize(maxLogSize: int, n: nat): int {
    if n == 0 then 0 else maxLogSize + FullSize(maxLogSize, n - 1)
  }

  lemma {:induction false} FullSizeIsProduct(maxLogSize: int, n: nat)
    ensures FullSize(maxLogSize, n) == n * maxLogSize
  {
    if n > 0 {
      FullSizeIsProduct(maxLogSize, n - 1);
    }
  }

  /** Nothing has been lost as long as what was logged would fit into the files. */
  ghost predicate Spared(files: map<int, seq<Line>>, maxLogSize: int, maxLogNum: nat, history: seq<Line>) {
    ReadBack(files, maxLogNum) == history || Size(history) > FullSize(maxLogSize, maxLogNum)
  }

  lemma {:induction false} SizeConcat(s: seq<Line>, t: seq<Line>)
    ensures Size(s + t) == Size(s) + Size(t)
  {
    if s == [] {
      assert s + t == t;
    } else {
      assert (s + t)[1..] == s[1..] + t;
      SizeConcat(s[1..], t);
    }
  }

  lemma SuffixSize(s: seq<Line>, t: seq<Line>)
    requires Suffix(s, t)
    ensures Size(s) <= Size(t)
  {
    var n := |t| - |s|;
    assert t == t[..n] + t[n..];
    SizeConcat(t[..n], t[n..]);
  }

  /** Full files hold what they must. */
  lemma {:induction false} FullFilesHold(files: map<int, seq<Line>>, maxLogSize: int, n: nat)
    requires forall i :: 0 <= i < n ==> i in files && Size(files[i]) >= maxLogSize
    ensures Size(ReadBack(files, n)) >= FullSize(maxLogSize, n)
  {
    if n > 0 {
      FullFilesHold(files, maxLogSize, n - 1);
      SizeConcat(Lines(files, n - 1), ReadBack(files, n - 1));
    }
  }

  lemma {:induction false} AllBelow(files: map<int, seq<Line>>, maxLogSize: int, top: int, i: int)
    requires Ripe(files, maxLogSize) && top in files && 0 <= i <= top
    ensures i in files
    decreases top - i
  {
    if i < top {
      AllBelow(files, maxLogSize, top, i + 1);
    }
  }

  lemma StaysRipe(was: map<int, seq<Line>>, files: map<int, seq<Line>>, maxLogSize: int, maxLogNum: nat, line: Line)
    requires Ripe(was, maxLogSize) && maxLogNum >= 1
    requires if Rotates(was, maxLogSize) then Rotated(was, files, maxLogNum) else files == was
    ensures Ripe(files[0 := Lines(files, 0) + [line]], maxLogSize)
  {
  }

  lemma LineHasSize(history: seq<Line>, line: Line)
    ensures Size(history + [line]) > Size(history)
  {
    SizeConcat(history, [line]);
    assert Size([line]) == |line| + 1 + Size([line][1..]);
  }

  /** A rotation loses something only when there is an oldest file, and then all files are full. */
  lemma LostMeansFull(was: map<int, seq<Line>>, maxLogSize: int, maxLogNum: nat, history: seq<Line>)
    requires Ripe(was, maxLogSize) && maxLogNum >= 1 && Suffix(ReadBack(was, maxLogNum), history)
    requires Rotates(was, maxLogSize) && maxLogNum - 1 in was
    ensures Size(history) >= FullSize(maxLogSize, maxLogNum)
  {
    forall i | 0 <= i < maxLogNum
      ensures i in was && Size(was[i]) >= maxLogSize
    {
      AllBelow(was, maxLogSize, maxLogNum - 1, i);
    }
    FullFilesHold(was, maxLogSize, maxLogNum);
    SuffixSize(ReadBack(was, maxLogNum), history);
  }

  lemma NothingDropped(was: map<int, seq<Line>>, files: map<int, seq<Line>>, maxLogSize: int, maxLogNum: nat)
    requires maxLogNum >= 1 && !(Rotates(was, maxLogSize) && maxLogNum - 1 in was)
    requires if Rotates(was, maxLogSize) then Rotated(was, files, maxLogNum) else files == was
    ensures ReadBack(files, maxLogNum) == ReadBack(was, maxLogNum)
  {
    ShiftReads(was, files, maxLogSize, maxLogNum);
    OldestDropped(was, maxLogNum);
  }

  lemma StaysSpared(was: map<int, seq<Line>>, files: map<int, seq<Line>>, maxLogSize: int, maxLogNum: nat,
                    line: Line, history: seq<Line>)
    requires Ripe(was, maxLogSize) && maxLogNum >= 1 && Suffix(ReadBack(was, maxLogNum), history)
    requires Spared(was, maxLogSize, maxLogNum, history)
    requires if Rotates(was, maxLogSize) then Rotated(was, files, maxLogNum) else files == was
    ensures Spared(files[0 := Lines(files, 0) + [line]], maxLogSize, maxLogNum, history + [line])
  {
    LineHasSize(history, line);
    if Rotates(was, maxLogSize) && maxLogNum - 1 in was {
      LostMeansFull(was, maxLogSize, maxLogNum, history);
    } else {
      AppendReads(files, line, maxLogNum);
      NothingDropped(was, files, maxLogSize, maxLogNum);
    }
  }

  /** There are at most maxLogNum files of a name, and what they hold is the end of what was logged
      under it. A file has been appended to only while it was below the size limit. */
  ghost predicate Keeps(files: map<int, seq<Line>>, maxLogSize: int, maxLogNum: nat, history: seq<Line>) {
    && (forall i :: i in files ==> 0 <= i < maxLogNum && WithinLimit(files[i], maxLogSize))
    && Suffix(ReadBack(files, maxLogNum), history)
    && Ripe(files, maxLogSize) && Spared(files, maxLogSize, maxLogNum, history)
  }

  lemma WriteKeeps(was: map<int, seq<Line>>, files: map<int, seq<Line>>, maxLogSize: int, maxLogNum: nat,
                   line: Line, history: seq<Line>)
    requires maxLogNum >= 1 && Keeps(was, maxLogSize, maxLogNum, history)
    requires if Rotates(was, maxLogSize) then Rotated(was, files, maxLogNum) else files == was
    ensures var after := files[0 := Lines(files, 0) + [line]];
      && Keeps(after, maxLogSize, maxLogNum, history + [line])
      && ReadBack(after, maxLogNum) == AfterWrite(was, maxLogSize, maxLogNum, line)
  {
    WriteReads(was, files, maxLogSize, maxLogNum, line, history);
    StaysWithinLimit(was, files, maxLogSize, maxLogNum, line);
    StaysRipe(was, files, maxLogSize, maxLogNum, line);
    StaysSpared(was, files, maxLogSize, maxLogNum, line, history);
  }

  lemma {:induction false} NothingToRead(n: nat)
    ensures ReadBack(map[], n) == []
  {
    if n > 0 {
      NothingToRead(n - 1);
    }
  }

  /** As long as what was logged under a name would fit into its files, all of it can be read. */
  lemma NothingLost(files: map<int, seq<Line>>, maxLogSize: int, maxLogNum: nat, history: seq<Line>)
    requires Keeps(files, maxLogSize, maxLogNum, history)
    ensures Size(history) <= maxLogNum * maxLogSize ==> ReadBack(files, maxLogNum) == history
  {
    FullSizeIsProduct(maxLogSize, maxLogNum);
  }

  function At<K, V>(m: map<K, V>, k: K, missing: V): V {
    if k in m then m[k] else missing
  }

  ghost function Keeping(maxLogSize: int, maxLogNum: nat): (map<int, seq<Line>>, seq<Line>) -> bool {
    (files: map<int, seq<Line>>, history: seq<Line>) => Keeps(files, maxLogSize, maxLogNum, history)
  }

  ghost predicate KeptAt<N, F, H>(keep: (F, H) -> bool, files: map<N, F>, history: map<N, H>, f: F, h: H, name: N) {
    keep(At(files, name, f), At(history, name, h))
  }

  ghost predicate AllKept<N(!new), F, H>(keep: (F, H) -> bool, files: map<N, F>, history: map<N, H>, f: F, h: H) {
    forall name :: KeptAt(keep, files, history, f, h, name)
  }

  /** Storing what is kept under one name leaves everything kept. */
  lemma OneStored<N(!new), F, H>(keep: (F, H) -> bool, files: map<N, F>, history: map<N, H>, f: F, h: H,
                                 name: N, those: F, lines: H)
    requires AllKept(keep, files, history, f, h) && keep(those, lines)
    ensures AllKept(keep, files[name := those], history[name := lines], f, h)
  {
    var files', history' := files[name := those], history[name := lines];
    forall k
      ensures KeptAt(keep, files', history', f, h, k)
    {
      assert KeptAt(keep, files, history, f, h, k);
    }
  }

  class Log {
    const maxLogSize: int
    const maxLogNum: nat
    const level: int
    /** The files of each base name, by index. */
    var files: map<BaseName, map<int, seq<Line>>>
    /** Everything that was ever logged under a name. */
    ghost var history: map<BaseName, seq<Line>>

    function FilesOf(name: BaseName): map<int, seq<Line>>
      reads this
    {
      At(files, name, map[])
    }

    ghost function HistoryOf(name: BaseName): seq<Line>
      reads this
    {
      At(history, name, [])
    }

    ghost predicate Valid()
      reads this
    {
      maxLogNum >= 1 && AllKept(Keeping(maxLogSize, maxLogNum), files, history, map[], [])
    }

    constructor (level: int, maxLogSize: int, maxLogNum: nat)
      requires maxLogNum >= 1
      ensures Valid() && files == map[] && history == map[]
      ensures this.level == level && this.maxLogSize == maxLogSize && this.maxLogNum == maxLogNum
    {
      this.level, this.maxLogSize, this.maxLogNum := level, maxLogSize, maxLogNum;
      files, history := map[], map[];
      new;
      NothingToRead(maxLogNum);
    }

    /** Rotates the files of a name when file 0 has reached the size limit. A rename would overwrite its
        target: RotateOne shows that there is none. */
    method ShiftFiles(before: map<int, seq<Line>>) returns (those: map<int, seq<Line>>)
      requires maxLogNum >= 1 && forall i :: i in before ==> 0 <= i < maxLogNum
      ensures if Rotates(before, maxLogSize) then Rotated(before, those, maxLogNum) else those == before
    {
      those := before;
      if 0 !in those || Size(those[0]) < maxLogSize {
        return;
      }
      RotationBegins(those, maxLogNum);
      those := those - {maxLogNum - 1};
      var i := maxLogNum - 2;
      while i >= 0
        invariant -1 <= i <= maxLogNum - 2
        invariant HalfRotated(before, those, i, maxLogNum)
      {
        RotateOne(before, those, i, maxLogNum);
        if i in those {
          those := (those - {i})[i + 1 := those[i]];
        }
        i := i - 1;
      }
      RotationEnds(before, those, maxLogNum);
    }

    /** Writes one line, if its level is logged, to the files of its level and day. */
    method WriteLog(e: Entry)
      requires Valid()
      modifies this
      ensures Valid()
      ensures forall name :: HistoryOf(name) == old(HistoryOf(name)) + if Goes(e, level, name) then [e.line] else []
      ensures forall name :: !Goes(e, level, name) ==> FilesOf(name) == old(FilesOf(name))
      ensures forall name :: Goes(e, level, name) ==>
        ReadBack(FilesOf(name), maxLogNum) == AfterWrite(old(FilesOf(name)), maxLogSize, maxLogNum, e.line)
    {
      if e.lvl >= level {
        return;
      }
      var name := LogFileName(e.lvl, e.date);
      if name == NoName {
        return;
      }
      AppendTo(name, e.line);
    }

    /** Rotates, then appends to file 0. */
    method AppendTo(name: BaseName, line: Line)
      requires Valid()
      modifies this
      ensures Valid()
      ensures HistoryOf(name) == old(HistoryOf(name)) + [line]
      ensures ReadBack(FilesOf(name), maxLogNum) == AfterWrite(old(FilesOf(name)), maxLogSize, maxLogNum, line)
      ensures files == old(files)[name := FilesOf(name)]
      ensures history == old(history)[name := old(HistoryOf(name)) + [line]]
    {
      ghost var before := HistoryOf(name);
      assert KeptAt(Keeping(maxLogSize, maxLogNum), files, history, map[], [], name);
      var those := Appended(FilesOf(name), line, before);
      OneStored(Keeping(maxLogSize, maxLogNum), files, history, map[], [], name, those, before + [line]);
      files := files[name := those];
      history := history[name := before + [line]];
    }

    /** The files of one name after a line has been written to them. */
    method Appended(before: map<int, seq<Line>>, line: Line, ghost history: seq<Line>)
      returns (those: map<int, seq<Line>>)
      requires maxLogNum >= 1 && Keeps(before, maxLogSize, maxLogNum, history)
      ensures Keeps(those, maxLogSize, maxLogNum, history + [line])
      ensures ReadBack(those, maxLogNum) == AfterWrite(before, maxLogSize, maxLogNum, line)
    {
      those := ShiftFiles(before);
      WriteKeeps(before, those, maxLogSize, maxLogNum, line, history);
      those := those[0 := Lines(those, 0) + [line]];
    }

    /** Any run of writes: each name has logged exactly the lines of its level and day. */
    method WriteAll(entries: seq<Entry>)
      requires Valid()
      modifies this
      ensures Valid()
      ensures forall name :: HistoryOf(name) == old(HistoryOf(name)) + Logged(entries, level, name)
    {
      var k := 0;
      while k < |entries|
        invariant 0 <= k <= |entries| && Valid()
        invariant forall name ::
          HistoryOf(name) + Logged(entries[k..], level, name) == old(HistoryOf(name)) + Logged(entries, level, name)
      {
        label before:
        WriteLog(entries[k]);
        forall name
          ensures HistoryOf(name) + Logged(entries[k + 1..], level, name) ==
            old(HistoryOf(name)) + Logged(entries, level, name)
        {
          OneMoreLogged(entries, k, level, name, old(HistoryOf(name)), old@before(HistoryOf(name)), HistoryOf(name));
        }
        k := k + 1;
      }
    }
  }

  lemma LoggedStep(entries: seq<Entry>, k: int, level: int, name: BaseName)
    requires 0 <= k < |entries|
    ensures Logged(entries[k..], level, name) ==
      (if Goes(entries[k], level, name) then [entries[k].line] else []) + Logged(entries[k + 1..], level, name)
  {
    assert entries[k..][1..] == entries[k + 1..];
  }

  /** What has been logged so far and what is still to come make up the whole, before a write and after. */
  lemma OneMoreLogged(entries: seq<Entry>, k: int, level: int, name: BaseName,
                      start: seq<Line>, was: seq<Line>, now: seq<Line>)
    requires 0 <= k < |entries|
    requires was + Logged(entries[k..], level, name) == start + Logged(entries, level, name)
    requires now == was + if Goes(entries[k], level, name) then [entries[k].line] else []
    ensures now + Logged(entries[k + 1..], level, name) == start + Logged(entries, level, name)
  {
    LoggedStep(entries, k, level, name);
  }

  /** The lines of a run that go to the files of a name. */
  function Logged(entries: seq<Entry>, level: int, name: BaseName): seq<Line> {
    if entries == [] then []
    else (if Goes(entries[0], level, name) then [entries[0].line] else []) + Logged(entries[1..], level, name)
  }
}
