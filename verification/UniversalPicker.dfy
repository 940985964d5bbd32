/** Universal compaction: the sorted runs of a version, newest first, and the choice of a window of them by size
    ratio. Sizes are unbounded integers; the ratio test is over the reals. */
module UniversalPicker {
  import opened DbFormat

  datatype RunFile = RunFile(size: nat, compensated: nat, beingCompacted: bool)

  datatype SortedRun = SortedRun(level: nat, size: nat, compensated: nat, beingCompacted: bool)

  datatype StopStyle = SimilarSize | TotalSize

  // ------------------------------------------------------------------
  // Sorted runs
  // ------------------------------------------------------------------

  function SizeUpTo(files: seq<RunFile>, n: nat): nat
    requires n <= |files|
  {
    if n == 0 then 0 else SizeUpTo(files, n - 1) + files[n - 1].size
  }

  function CompensatedUpTo(files: seq<RunFile>, n: nat): nat
    requires n <= |files|
  {
    if n == 0 then 0 else CompensatedUpTo(files, n - 1) + files[n - 1].compensated
  }

  /** Runs come newest first: level-0 files, then at most one run per deeper level, going down. */
  ghost predicate AgeOrdered(runs: seq<SortedRun>, numLevels: nat) {
    && (forall i :: 0 <= i < |runs| ==> runs[i].level < numLevels)
    && (forall i, j :: 0 <= i < j < |runs| ==> runs[i].level < runs[j].level || (runs[i].level == 0 && runs[j].level == 0))
  }

  /** The run stands for all the files of its level. With trivial moves, any file being compacted keeps the run out of
      reach; otherwise the first file speaks for all. */
  ghost predicate Stands(run: SortedRun, files: seq<RunFile>, level: nat, allowTrivialMove: bool) {
    && run.level == level && run.size == SizeUpTo(files, |files|) && run.compensated == CompensatedUpTo(files, |files|)
    && files != []
    && (run.beingCompacted <==>
          if allowTrivialMove then exists i :: 0 <= i < |files| && files[i].beingCompacted else files[0].beingCompacted)
  }

  method LevelRun(files: seq<RunFile>, level: nat, allowTrivialMove: bool) returns (run: SortedRun)
    ensures files != [] ==> Stands(run, files, level, allowTrivialMove)
    ensures run.compensated == CompensatedUpTo(files, |files|) && run.level == level
  {
    var totalCompensated, totalSize, beingCompacted, isFirst := 0, 0, false, true;
    for i := 0 to |files|
      invariant isFirst <==> i == 0
      invariant totalSize == SizeUpTo(files, i) && totalCompensated == CompensatedUpTo(files, i)
      invariant i > 0 && !allowTrivialMove ==> beingCompacted == files[0].beingCompacted
      invariant allowTrivialMove ==> (beingCompacted <==> exists j :: 0 <= j < i && files[j].beingCompacted)
    {
      totalCompensated, totalSize := totalCompensated + files[i].compensated, totalSize + files[i].size;
      if allowTrivialMove {
        if files[i].beingCompacted {
          beingCompacted := true;
        }
      }
      if isFirst {
        beingCompacted := files[i].beingCompacted;
        isFirst := false;
      }
    }
    run := SortedRun(level, totalSize, totalCompensated, beingCompacted);
  }

  /** The runs of the level-0 files, one each, in order. */
  ghost predicate StartsWith(runs: seq<SortedRun>, files: seq<RunFile>) {
    && |files| <= |runs|
    && forall i :: 0 <= i < |files| ==> runs[i] == SortedRun(0, files[i].size, files[i].compensated, files[i].beingCompacted)
  }

  /** The level has a run. */
  ghost predicate HasRun(runs: seq<SortedRun>, l: nat) {
    exists r :: 0 <= r < |runs| && runs[r].level == l
  }

  /** The runs of the levels above `upTo`: one per level-0 file in order, then one per deeper level that holds
      anything, which stands for its files. */
  ghost predicate RunsOf(runs: seq<SortedRun>, levels: seq<seq<RunFile>>, upTo: nat, allowTrivialMove: bool)
    requires 1 <= upTo <= |levels|
  {
    && AgeOrdered(runs, upTo) && StartsWith(runs, levels[0])
    && (forall r :: |levels[0]| <= r < |runs| ==> runs[r].level >= 1 && runs[r].compensated > 0)
    && (forall r :: |levels[0]| <= r < |runs| ==> Stands(runs[r], levels[runs[r].level], runs[r].level, allowTrivialMove))
    && (forall l :: 1 <= l < upTo && CompensatedUpTo(levels[l], |levels[l]|) > 0 ==> HasRun(runs, l))
  }

  lemma AddRun(runs: seq<SortedRun>, levels: seq<seq<RunFile>>, level: nat, allowTrivialMove: bool, run: SortedRun)
    requires 1 <= level < |levels| && RunsOf(runs, levels, level, allowTrivialMove)
    requires Stands(run, levels[level], level, allowTrivialMove) && run.compensated > 0
    ensures RunsOf(runs + [run], levels, level + 1, allowTrivialMove)
  {
    var after := runs + [run];
    assert after[|runs|].level == level;
    forall l | HasRun(runs, l) ensures HasRun(after, l) {
      var r :| 0 <= r < |runs| && runs[r].level == l;
      assert after[r].level == l;
    }
  }

  method LevelZeroRuns(files: seq<RunFile>) returns (runs: seq<SortedRun>)
    ensures |runs| == |files| && StartsWith(runs, files)
  {
    runs := [];
    for i := 0 to |files|
      invariant |runs| == i
      invariant forall j :: 0 <= j < i ==> runs[j] == SortedRun(0, files[j].size, files[j].compensated, files[j].beingCompacted)
    {
      runs := runs + [SortedRun(0, files[i].size, files[i].compensated, files[i].beingCompacted)];
    }
  }

  /** The sorted runs of a version. */
  method CalculateSortedRuns(levels: seq<seq<RunFile>>, allowTrivialMove: bool) returns (runs: seq<SortedRun>)
    requires levels != []
    ensures RunsOf(runs, levels, |levels|, allowTrivialMove)
  {
    runs := LevelZeroRuns(levels[0]);
    for level := 1 to |levels|
      invariant RunsOf(runs, levels, level, allowTrivialMove)
    {
      var run := LevelRun(levels[level], level, allowTrivialMove);
      if run.compensated > 0 {
        AddRun(runs, levels, level, allowTrivialMove, run);
        runs := runs + [run];
      }
    }
  }

  // ------------------------------------------------------------------
  // Windows
  // ------------------------------------------------------------------

  datatype Pick = Pick(start: nat, count: nat, outputLevel: nat)

  datatype Rule = Rule(ratio: nat, style: StopStyle, minMergeWidth: nat, maxMergeWidth: nat, maxFiles: nat) {
    function Widest(): (w: nat)
      ensures w <= maxMergeWidth && w <= maxFiles && (w == maxMergeWidth || w == maxFiles)
    {
      if maxMergeWidth < maxFiles then maxMergeWidth else maxFiles
    }

    function Narrowest(): (w: nat)
      ensures w >= 2 && w >= minMergeWidth && (w == 2 || w == minMergeWidth)
    {
      if minMergeWidth > 2 then minMergeWidth else 2
    }
  }

  function CompensatedBetween(runs: seq<SortedRun>, from: nat, end: nat): nat
    requires from <= end <= |runs|
    decreases end
  {
    if from == end then 0 else CompensatedBetween(runs, from, end - 1) + runs[end - 1].compensated
  }

  /** The size the next run is measured against: all picked so far, or only the last of them. */
  function CandidateSize(runs: seq<SortedRun>, from: nat, end: nat, style: StopStyle): nat
    requires from < end <= |runs|
  {
    if style == SimilarSize then runs[end - 1].compensated else CompensatedBetween(runs, from, end)
  }

  predicate Covers(size: nat, ratio: nat, other: nat) {
    size as real * (100.0 + ratio as real) / 100.0 >= other as real
  }

  /** Run `i` may join the window that starts at `from` and ends before it. */
  predicate Accepts(runs: seq<SortedRun>, from: nat, i: nat, rule: Rule)
    requires from < i < |runs|
  {
    && !runs[i].beingCompacted
    && Covers(CandidateSize(runs, from, i, rule.style), rule.ratio, runs[i].size)
    && (rule.style == SimilarSize ==> Covers(runs[i].size, rule.ratio, CandidateSize(runs, from, i, rule.style)))
  }

  /** The `n` runs from `from` on can be compacted together. */
  ghost predicate Fits(runs: seq<SortedRun>, from: nat, n: nat, rule: Rule) {
    && 1 <= n && from + n <= |runs| && (n == 1 || n <= rule.Widest())
    && !runs[from].beingCompacted
    && forall i :: from < i < from + n ==> Accepts(runs, from, i, rule)
  }

  // The same in whole numbers and without the running candidate size.

  /** Run i is within the ratio of the window that starts at `from` and ends before it: of the sum of the window, or of
      its last run, which then is within the ratio of run i too. */
  ghost predicate WithinRatio(runs: seq<SortedRun>, from: nat, i: nat, rule: Rule)
    requires from < i < |runs|
  {
    if rule.style == TotalSize then 100 * runs[i].size <= (100 + rule.ratio) * CompensatedBetween(runs, from, i)
    else
      && 100 * runs[i].size <= (100 + rule.ratio) * runs[i - 1].compensated
      && 100 * runs[i - 1].compensated <= (100 + rule.ratio) * runs[i].size
  }

  lemma CoversIs(size: nat, ratio: nat, other: nat)
    ensures Covers(size, ratio, other) <==> 100 * other <= (100 + ratio) * size
  {
    assert ((100 + ratio) * size) as real == (100.0 + ratio as real) * size as real;
  }

  /** Sums of windows: a window of one run, and one run more. */
  lemma WindowSum(runs: seq<SortedRun>, from: nat, end: nat)
    requires from < end < |runs|
    ensures CompensatedBetween(runs, from, from + 1) == runs[from].compensated
    ensures CompensatedBetween(runs, from, end + 1) == CompensatedBetween(runs, from, end) + runs[end].compensated
  {
    assert CompensatedBetween(runs, from, from + 1) == CompensatedBetween(runs, from, from) + runs[from].compensated;
  }

  lemma AcceptsIs(runs: seq<SortedRun>, from: nat, i: nat, rule: Rule)
    requires from < i < |runs|
    ensures Accepts(runs, from, i, rule) <==> !runs[i].beingCompacted && WithinRatio(runs, from, i, rule)
  {
    CoversIs(CandidateSize(runs, from, i, rule.style), rule.ratio, runs[i].size);
    CoversIs(runs[i].size, rule.ratio, CandidateSize(runs, from, i, rule.style));
  }

  /** A window fits exactly when it is no wider than allowed, all its runs are idle, and each is within the ratio of those
      before it. */
  lemma FitsIff(runs: seq<SortedRun>, from: nat, n: nat, rule: Rule)
    ensures Fits(runs, from, n, rule) <==>
            && 1 <= n && from + n <= |runs| && (n == 1 || (n <= rule.maxMergeWidth && n <= rule.maxFiles))
            && (forall i :: from <= i < from + n ==> !runs[i].beingCompacted)
            && (forall i :: from < i < from + n ==> WithinRatio(runs, from, i, rule))
  {
    forall i | from < i < from + n && from + n <= |runs|
      ensures Accepts(runs, from, i, rule) <==> !runs[i].beingCompacted && WithinRatio(runs, from, i, rule)
    {
      AcceptsIs(runs, from, i, rule);
    }
  }

  /** What stands after a widest window: nothing, a run being compacted, or one out of ratio, unless the width limit is
      reached. */
  ghost predicate Stopped(runs: seq<SortedRun>, from: nat, count: nat, rule: Rule)
    requires 1 <= count && from + count <= |runs|
  {
    || from + count == |runs| || count + 1 > rule.maxMergeWidth || count + 1 > rule.maxFiles
    || runs[from + count].beingCompacted || !WithinRatio(runs, from, from + count, rule)
  }

  lemma WidestStopped(runs: seq<SortedRun>, from: nat, count: nat, rule: Rule)
    requires Fits(runs, from, count, rule) && !Fits(runs, from, count + 1, rule)
    ensures Stopped(runs, from, count, rule)
  {
    if from + count < |runs| {
      AcceptsIs(runs, from, from + count, rule);
    }
  }

  lemma WiderFits(runs: seq<SortedRun>, from: nat, n: nat, rule: Rule)
    requires 2 <= n && rule.minMergeWidth <= n && Fits(runs, from, n, rule)
    ensures Fits(runs, from, rule.Narrowest(), rule)
  {
    assert rule.Narrowest() <= n && rule.Narrowest() <= rule.Widest();
  }

  lemma NarrowerFits(runs: seq<SortedRun>, from: nat, n: nat, rule: Rule)
    requires 1 <= n <= rule.Narrowest()
    ensures Fits(runs, from, rule.Narrowest(), rule) ==> Fits(runs, from, n, rule)
  {
  }

  /** The widest window that starts at `from`. */
  method Grow(runs: seq<SortedRun>, from: nat, rule: Rule) returns (count: nat)
    requires from < |runs| && !runs[from].beingCompacted
    ensures Fits(runs, from, count, rule) && !Fits(runs, from, count + 1, rule)
    ensures forall i :: from < i < from + count ==> WithinRatio(runs, from, i, rule)
    ensures Stopped(runs, from, count, rule)
  {
    count := 1;
    var candidateSize := runs[from].compensated;
    var i := from + 1;
    assert CompensatedBetween(runs, from, from + 1) == CompensatedBetween(runs, from, from) + runs[from].compensated;
    while count < rule.Widest() && i < |runs|
      invariant i == from + count && Fits(runs, from, count, rule)
      invariant candidateSize == CandidateSize(runs, from, i, rule.style)
    {
      if runs[i].beingCompacted {
        break;
      }
      if !Covers(candidateSize, rule.ratio, runs[i].size) {
        break;
      }
      if rule.style == SimilarSize {
        if !Covers(runs[i].size, rule.ratio, candidateSize) {
          break;
        }
        candidateSize := runs[i].compensated;
      } else {
        candidateSize := candidateSize + runs[i].compensated;
      }
      assert Accepts(runs, from, i, rule);
      count, i := count + 1, i + 1;
    }
    assert i < |runs| && count < rule.Widest() ==> !Accepts(runs, from, i, rule);
    FitsIff(runs, from, count, rule);
    WidestStopped(runs, from, count, rule);
  }

  /** Window and level: at or below every picked run, above the next older one unless both are at level 0. */
  ghost predicate LevelFits(runs: seq<SortedRun>, p: Pick, numLevels: nat)
    requires p.start + p.count <= |runs|
  {
    && p.outputLevel < numLevels
    && (forall i :: p.start <= i < p.start + p.count ==> runs[i].level <= p.outputLevel)
    && (p.start + p.count < |runs| ==>
          var next := runs[p.start + p.count].level; p.outputLevel < next || (p.outputLevel == 0 && next == 0))
  }

  /** The runs once the picked ones are merged into one. */
  ghost function Merged(runs: seq<SortedRun>, p: Pick, merged: SortedRun): seq<SortedRun>
    requires p.start + p.count <= |runs|
  {
    runs[..p.start] + [merged] + runs[p.start + p.count..]
  }

  /** Merging a window into its level keeps the runs ordered by age: nothing newer ends up below anything older. */
  lemma AgeOrderKept(runs: seq<SortedRun>, p: Pick, merged: SortedRun, numLevels: nat)
    requires AgeOrdered(runs, numLevels) && 1 <= p.count && p.start + p.count <= |runs|
    requires merged.level == p.outputLevel && LevelFits(runs, p, numLevels)
    ensures AgeOrdered(Merged(runs, p, merged), numLevels)
  {
    var after := Merged(runs, p, merged);
    assert runs[p.start].level <= p.outputLevel;
    forall i, j | 0 <= i < j < |after|
      ensures after[i].level < after[j].level || (after[i].level == 0 && after[j].level == 0)
    {
      var old_i := if i <= p.start then i else i + p.count - 1;
      var old_j := if j <= p.start then j else j + p.count - 1;
      assert i != p.start ==> after[i] == runs[old_i];
      assert j != p.start ==> after[j] == runs[old_j];
      assert p.start + p.count <= old_j ==> old_j == p.start + p.count || runs[p.start + p.count].level < runs[old_j].level || runs[old_j].level == 0;
    }
  }

  /** At any deeper level the merged run would end up below something older, or there is no such level. */
  lemma DeeperBreaksOrder(runs: seq<SortedRun>, p: Pick, merged: SortedRun, numLevels: nat)
    requires AgeOrdered(runs, numLevels) && 1 <= p.count && p.start + p.count <= |runs| && LevelFits(runs, p, numLevels)
    requires forall deeper: nat :: deeper > p.outputLevel ==> !LevelFits(runs, p.(outputLevel := deeper), numLevels)
    requires merged.level > p.outputLevel
    ensures !AgeOrdered(Merged(runs, p, merged), numLevels)
  {
    var after := Merged(runs, p, merged);
    assert after[p.start] == merged;
    assert !LevelFits(runs, p.(outputLevel := merged.level), numLevels);
    if merged.level < numLevels {
      assert p.start + p.count < |runs| && after[p.start + 1] == runs[p.start + p.count];
    }
  }

  /** A run that is out of reach has a file being compacted. */
  lemma BusyRunHasBusyFile(runs: seq<SortedRun>, levels: seq<seq<RunFile>>, allowTrivialMove: bool, i: nat) returns (f: nat)
    requires levels != [] && RunsOf(runs, levels, |levels|, allowTrivialMove) && i < |runs| && runs[i].beingCompacted
    ensures f < |levels[runs[i].level]| && levels[runs[i].level][f].beingCompacted
    ensures runs[i].level == 0 ==> f == i
  {
    if i < |levels[0]| {
      f := i;
    } else {
      assert Stands(runs[i], levels[runs[i].level], runs[i].level, allowTrivialMove);
      f :| 0 <= f < |levels[runs[i].level]| && levels[runs[i].level][f].beingCompacted;
    }
  }

  /** A level that holds anything and lies below the newest picked run, down to the output level, is picked: merged
      records do not sink past older ones. */
  lemma NothingJumpedOver(runs: seq<SortedRun>, levels: seq<seq<RunFile>>, allowTrivialMove: bool, p: Pick, l: nat) returns (r: nat)
    requires levels != [] && RunsOf(runs, levels, |levels|, allowTrivialMove) && 1 <= p.count && p.start + p.count <= |runs|
    requires LevelFits(runs, p, |levels|)
    requires runs[p.start].level < l <= p.outputLevel && CompensatedUpTo(levels[l], |levels[l]|) > 0
    ensures p.start <= r < p.start + p.count && runs[r].level == l && Stands(runs[r], levels[l], l, allowTrivialMove)
  {
    assert HasRun(runs, l);
    r :| 0 <= r < |runs| && runs[r].level == l;
  }

  /** No file of a picked run is being compacted, given that without trivial moves the files of a deeper level are
      compacted together. */
  lemma PickedFilesIdle(runs: seq<SortedRun>, levels: seq<seq<RunFile>>, allowTrivialMove: bool, i: nat, f: nat)
    requires levels != [] && RunsOf(runs, levels, |levels|, allowTrivialMove)
    requires !allowTrivialMove ==> forall l, j, k :: 1 <= l < |levels| && 0 <= j < |levels[l]| && 0 <= k < |levels[l]| ==>
      levels[l][j].beingCompacted == levels[l][k].beingCompacted
    requires i < |runs| && !runs[i].beingCompacted
    requires runs[i].level == 0 ==> f == i
    requires f < |levels[runs[i].level]|
    ensures !levels[runs[i].level][f].beingCompacted
  {
  }

  /** The deepest level the window can go to. */
  method OutputLevel(runs: seq<SortedRun>, start: nat, count: nat, numLevels: nat) returns (outputLevel: nat)
    requires AgeOrdered(runs, numLevels) && 1 <= count && start + count <= |runs|
    ensures LevelFits(runs, Pick(start, count, outputLevel), numLevels)
    ensures forall deeper: nat :: deeper > outputLevel ==> !LevelFits(runs, Pick(start, count, deeper), numLevels)
    ensures forall merged: SortedRun :: merged.level > outputLevel ==>
              !AgeOrdered(Merged(runs, Pick(start, count, outputLevel), merged), numLevels)
  {
    assert runs[start].level < numLevels;
    if start + count == |runs| {
      outputLevel := numLevels - 1;
    } else if runs[start + count].level == 0 {
      outputLevel := 0;
    } else {
      outputLevel := runs[start + count].level - 1;
    }
    var p := Pick(start, count, outputLevel);
    forall deeper: nat | deeper > outputLevel ensures !LevelFits(runs, p.(outputLevel := deeper), numLevels) {}
    forall merged: SortedRun | merged.level > outputLevel ensures !AgeOrdered(Merged(runs, p, merged), numLevels) {
      DeeperBreaksOrder(runs, p, merged, numLevels);
    }
  }

  /** Picks the window that starts first among those wide enough, as wide as it can be, or nothing when no window is
      wide enough. */
  method PickCompactionUniversalReadAmp(runs: seq<SortedRun>, numLevels: nat, rule: Rule) returns (r: Option<Pick>)
    requires AgeOrdered(runs, numLevels)
    ensures r.None? <==> forall s: nat :: !Fits(runs, s, rule.Narrowest(), rule)
    ensures r.None? ==> forall s: nat, n: nat :: 2 <= n && rule.minMergeWidth <= n ==> !Fits(runs, s, n, rule)
    ensures r.Some? ==> rule.Narrowest() <= r.value.count <= rule.Widest() && r.value.start + r.value.count <= |runs|
    ensures r.Some? ==> forall i :: r.value.start < i < r.value.start + r.value.count ==> WithinRatio(runs, r.value.start, i, rule)
    ensures r.Some? ==> Stopped(runs, r.value.start, r.value.count, rule)
    ensures r.Some? ==> Fits(runs, r.value.start, r.value.count, rule) && !Fits(runs, r.value.start, r.value.count + 1, rule)
    ensures r.Some? ==> forall s: nat :: s < r.value.start ==> !Fits(runs, s, rule.Narrowest(), rule)
    ensures r.Some? ==> LevelFits(runs, r.value, numLevels)
    ensures r.Some? ==> forall deeper: nat :: deeper > r.value.outputLevel ==> !LevelFits(runs, r.value.(outputLevel := deeper), numLevels)
    ensures r.Some? ==> forall i :: r.value.start <= i < r.value.start + r.value.count ==> !runs[i].beingCompacted
  {
    var loop := 0;
    while loop < |runs|
      invariant forall s: nat :: s < loop ==> !Fits(runs, s, rule.Narrowest(), rule)
      decreases |runs| - loop
    {
      while loop < |runs| && runs[loop].beingCompacted
        invariant forall s: nat :: s < loop ==> !Fits(runs, s, rule.Narrowest(), rule)
      {
        loop := loop + 1;
      }
      if loop < |runs| {
        var count := Grow(runs, loop, rule);
        if count >= rule.Narrowest() {
          var outputLevel := OutputLevel(runs, loop, count, numLevels);
          assert Fits(runs, loop, rule.Narrowest(), rule);
          forall i | loop <= i < loop + count ensures !runs[i].beingCompacted {
            assert i > loop ==> Accepts(runs, loop, i, rule);
          }
          return Some(Pick(loop, count, outputLevel));
        }
        NarrowerFits(runs, loop, count + 1, rule);
      }
      loop := loop + 1;
    }
    assert forall s: nat :: s >= |runs| ==> !Fits(runs, s, rule.Narrowest(), rule);
    forall s: nat, n: nat | 2 <= n && rule.minMergeWidth <= n ensures !Fits(runs, s, n, rule) {
      if Fits(runs, s, n, rule) {
        WiderFits(runs, s, n, rule);
      }
    }
    return None;
  }
}
