/** The level structure a compaction reads: its input boundary keys, whether it writes the
    bottommost data for its key range, and the cached-cursor test for older data. */
module CompactionLevels {
  import opened DbFormat

  datatype FileMeta = FileMeta(number: nat, smallest: UserKey, largest: UserKey) {
    predicate Covers(k: UserKey) { smallest <= k <= largest }
    predicate Overlaps(lo: UserKey, hi: UserKey) { smallest <= hi && lo <= largest }
  }

  datatype InputFiles = InputFiles(level: nat, files: seq<FileMeta>)

  /** The parts of a Compaction object that the iterator consults, and the level-0 files older than its inputs. */
  datatype Compaction = Compaction(levels: seq<seq<FileMeta>>, olderLevel0: seq<FileMeta>, outputLevel: nat,
                                   universal: bool, bottommost: bool)

  ghost predicate KeySorted(files: seq<FileMeta>) {
    && (forall i :: 0 <= i < |files| ==> files[i].smallest <= files[i].largest)
    && (forall i, j :: 0 <= i < j < |files| ==> files[i].largest <= files[j].smallest)
  }

  /** Every level below level 0 is range partitioned. */
  ghost predicate KeySortedLevels(levels: seq<seq<FileMeta>>) {
    forall l :: 1 <= l < |levels| ==> KeySorted(levels[l])
  }

  // ------------------------------------------------------------------
  // Older data beyond the output level
  // ------------------------------------------------------------------

  /** Some file of a level beyond the output level has k in its range. */
  ghost predicate CoveredBeyond(c: Compaction, k: UserKey) {
    exists l, j :: c.outputLevel < l < |c.levels| && 0 <= j < |c.levels[l]| && c.levels[l][j].Covers(k)
  }

  /** Some file older than the inputs has k in its range. */
  ghost predicate OlderFile(c: Compaction, k: UserKey) {
    CoveredBeyond(c, k) || exists j :: 0 <= j < |c.olderLevel0| && c.olderLevel0[j].Covers(k)
  }

  /** The stateless meaning of the code's test for a key. For universal style it is a flag. */
  ghost predicate NotBeyond(c: Compaction, k: UserKey) {
    if c.universal then c.bottommost else !CoveredBeyond(c, k)
  }

  /** Cursors only ever pass files that end before k. */
  ghost predicate CursorsBelow(c: Compaction, ptrs: seq<nat>, k: UserKey) {
    && |ptrs| == |c.levels|
    && (forall l, j :: c.outputLevel < l < |ptrs| && 0 <= j < ptrs[l] && j < |c.levels[l]| ==>
          c.levels[l][j].largest < k)
  }

  method KeyNotExistsBeyondOutputLevel(c: Compaction, k: UserKey, ptrs: seq<nat>)
    returns (r: bool, ptrs': seq<nat>)
    requires KeySortedLevels(c.levels)
    requires CursorsBelow(c, ptrs, k)
    ensures r <==> NotBeyond(c, k)
    ensures CursorsBelow(c, ptrs', k)
  {
    ptrs' := ptrs;
    if c.universal {
      return c.bottommost, ptrs';
    }
    var lvl := c.outputLevel + 1;
    while lvl < |c.levels|
      invariant c.outputLevel < lvl
      invariant CursorsBelow(c, ptrs', k)
      invariant forall l, j :: c.outputLevel < l < lvl && l < |c.levels| && 0 <= j < |c.levels[l]| ==>
                  !c.levels[l][j].Covers(k)
    {
      var files := c.levels[lvl];
      while ptrs'[lvl] < |files|
        invariant CursorsBelow(c, ptrs', k)
        decreases |files| - ptrs'[lvl]
      {
        var f := files[ptrs'[lvl]];
        if k <= f.largest {
          if k >= f.smallest {
            return false, ptrs';
          }
          break;
        }
        ptrs' := ptrs'[lvl := ptrs'[lvl] + 1];
      }
      forall j | 0 <= j < |files|
        ensures !files[j].Covers(k)
      {
        if ptrs'[lvl] < j {
          assert files[ptrs'[lvl]].largest <= files[j].smallest;
        }
      }
      lvl := lvl + 1;
    }
    r := true;
  }

  lemma CoveredBeyondIff(c: Compaction, k: UserKey)
    ensures CoveredBeyond(c, k) <==> !NothingBeyond(c.outputLevel, c.levels, k, k)
  {
    forall l, j | c.outputLevel < l < |c.levels| && 0 <= j < |c.levels[l]|
      ensures c.levels[l][j].Covers(k) <==> Shares(c.levels[l][j], k, k, k)
    {
    }
  }

  /** One persistent cursor vector answers a whole non-decreasing run of queries as the
      stateless test would, although early returns leave later levels' cursors behind. */
  method RunQueries(c: Compaction, keys: seq<UserKey>) returns (answers: seq<bool>)
    requires KeySortedLevels(c.levels)
    requires forall i, j :: 0 <= i < j < |keys| ==> keys[i] <= keys[j]
    ensures |answers| == |keys|
    ensures forall i :: 0 <= i < |keys| ==> (answers[i] <==> NotBeyond(c, keys[i]))
    ensures c.universal ==> forall i :: 0 <= i < |keys| ==> answers[i] == c.bottommost
    ensures !c.universal ==> forall i :: 0 <= i < |keys| ==> (answers[i] <==> NothingBeyond(c.outputLevel, c.levels, keys[i], keys[i]))
  {
    var ptrs: seq<nat> := seq(|c.levels|, _ => 0);
    answers := [];
    while |answers| < |keys|
      invariant |answers| <= |keys|
      invariant |answers| < |keys| ==> CursorsBelow(c, ptrs, keys[|answers|])
      invariant forall i :: 0 <= i < |answers| ==> (answers[i] <==> NotBeyond(c, keys[i]))
    {
      var r: bool;
      r, ptrs := KeyNotExistsBeyondOutputLevel(c, keys[|answers|], ptrs);
      answers := answers + [r];
    }
    forall i | 0 <= i < |keys| ensures NothingBeyond(c.outputLevel, c.levels, keys[i], keys[i]) <==> !CoveredBeyond(c, keys[i]) {
      CoveredBeyondIff(c, keys[i]);
    }
  }

  // ------------------------------------------------------------------
  // Boundary keys and the bottommost test
  // ------------------------------------------------------------------

  /** The range that GetBoundaryKeys reports when there is some input file. */
  ghost predicate IsBoundary(inputs: seq<InputFiles>, lo: UserKey, hi: UserKey) {
    && (forall i :: 0 <= i < |inputs| && inputs[i].files != [] ==>
          lo <= inputs[i].files[0].smallest && inputs[i].files[|inputs[i].files| - 1].largest <= hi)
    && (exists i :: 0 <= i < |inputs| && inputs[i].files != [] && inputs[i].files[0].smallest == lo)
    && (exists i :: 0 <= i < |inputs| && inputs[i].files != [] && inputs[i].files[|inputs[i].files| - 1].largest == hi)
  }

  method GetBoundaryKeys(inputs: seq<InputFiles>) returns (initialized: bool, lo: UserKey, hi: UserKey)
    ensures initialized <==> exists i :: 0 <= i < |inputs| && inputs[i].files != []
    ensures initialized ==> IsBoundary(inputs, lo, hi)
  {
    initialized, lo, hi := false, 0.0, 0.0;
    for i := 0 to |inputs|
      invariant initialized <==> exists k :: 0 <= k < i && inputs[k].files != []
      invariant initialized ==> IsBoundary(inputs[..i], lo, hi)
    {
      if inputs[i].files == [] {
        assert inputs[..i + 1] == inputs[..i] + [inputs[i]];
        continue;
      }
      ghost var lo0, hi0 := lo, hi;
      var start := inputs[i].files[0].smallest;
      if !initialized || start < lo {
        lo := start;
      }
      var end := inputs[i].files[|inputs[i].files| - 1].largest;
      if !initialized || end > hi {
        hi := end;
      }
      BoundaryExtends(inputs, i, initialized, lo0, hi0);
      initialized := true;
    }
    assert inputs[..|inputs|] == inputs;
  }

  /** The range of one more input level joins the range so far. */
  lemma BoundaryExtends(inputs: seq<InputFiles>, i: nat, initialized: bool, lo: UserKey, hi: UserKey)
    requires i < |inputs| && inputs[i].files != []
    requires initialized <==> exists k :: 0 <= k < i && inputs[k].files != []
    requires initialized ==> IsBoundary(inputs[..i], lo, hi)
    ensures var start, end := inputs[i].files[0].smallest, inputs[i].files[|inputs[i].files| - 1].largest;
            IsBoundary(inputs[..i + 1], if !initialized || start < lo then start else lo,
                       if !initialized || end > hi then end else hi)
  {
    var pre, post := inputs[..i], inputs[..i + 1];
    assert post == pre + [inputs[i]];
    if !initialized {
      assert post[i] == inputs[i] && forall k :: 0 <= k < i ==> post[k].files == [];
    } else {
      var a :| 0 <= a < |pre| && pre[a].files != [] && pre[a].files[0].smallest == lo;
      var b :| 0 <= b < |pre| && pre[b].files != [] && pre[b].files[|pre[b].files| - 1].largest == hi;
      BoundaryJoins(pre, inputs[i], lo, hi, a, b);
    }
  }

  lemma BoundaryJoins(pre: seq<InputFiles>, more: InputFiles, lo: UserKey, hi: UserKey, a: nat, b: nat)
    requires more.files != [] && IsBoundary(pre, lo, hi)
    requires a < |pre| && pre[a].files != [] && pre[a].files[0].smallest == lo
    requires b < |pre| && pre[b].files != [] && pre[b].files[|pre[b].files| - 1].largest == hi
    ensures var start, end := more.files[0].smallest, more.files[|more.files| - 1].largest;
            IsBoundary(pre + [more], if start < lo then start else lo, if end > hi then end else hi)
  {
    var post := pre + [more];
    assert post[a] == pre[a] && post[b] == pre[b] && post[|pre|] == more;
  }

  /** Each level's inputs are listed in key order. */
  ghost predicate KeyOrderedInputs(inputs: seq<InputFiles>) {
    forall i :: 0 <= i < |inputs| ==> KeySorted(inputs[i].files)
  }

  ghost predicate HoldsKey(inputs: seq<InputFiles>, k: UserKey) {
    exists i, j :: 0 <= i < |inputs| && 0 <= j < |inputs[i].files| && inputs[i].files[j].Covers(k)
  }

  /** With key-ordered inputs the boundary range covers every input key. */
  lemma BoundaryCovers(inputs: seq<InputFiles>, lo: UserKey, hi: UserKey, k: UserKey)
    requires KeyOrderedInputs(inputs) && IsBoundary(inputs, lo, hi) && HoldsKey(inputs, k)
    ensures lo <= k <= hi
  {
    var i, j :| 0 <= i < |inputs| && 0 <= j < |inputs[i].files| && inputs[i].files[j].Covers(k);
    var fs := inputs[i].files;
    assert KeySorted(fs);
    assert fs[0].smallest <= fs[j].smallest by {
      if j > 0 { assert fs[0].largest <= fs[j].smallest; }
    }
    assert fs[j].largest <= fs[|fs| - 1].largest by {
      if j < |fs| - 1 { assert fs[j].largest <= fs[|fs| - 1].smallest; }
    }
  }

  /** For level-0 inputs listed by age the range can miss an input key. */
  lemma BoundaryMissesLevel0Key()
    ensures exists inputs, lo, hi, k :: IsBoundary(inputs, lo, hi) && HoldsKey(inputs, k) && !(lo <= k <= hi)
  {
    var inputs := [InputFiles(0, [FileMeta(2, OneByte(2), OneByte(3)), FileMeta(1, 0.0, OneByte(4))])];
    assert inputs[0].files[0].smallest == OneByte(2) && inputs[0].files[1].Covers(0.0);
    assert IsBoundary(inputs, OneByte(2), OneByte(4));
    assert HoldsKey(inputs, 0.0);
  }

  predicate OverlapInLevel(files: seq<FileMeta>, lo: UserKey, hi: UserKey) {
    exists j :: 0 <= j < |files| && files[j].Overlaps(lo, hi)
  }

  /** k lies in the range of f and between lo and hi. */
  ghost predicate Shares(f: FileMeta, lo: UserKey, hi: UserKey, k: UserKey) {
    f.smallest <= k <= f.largest && lo <= k <= hi
  }

  /** The overlap test decides whether the two ranges have a key in common; of a reversed range it asks for both ends. */
  lemma OverlapsIff(f: FileMeta, lo: UserKey, hi: UserKey)
    requires f.smallest <= f.largest
    ensures lo <= hi ==> (f.Overlaps(lo, hi) <==> exists k :: Shares(f, lo, hi, k))
    ensures lo > hi ==> (f.Overlaps(lo, hi) <==> f.smallest <= hi <= f.largest && f.smallest <= lo <= f.largest)
  {
    if lo <= hi && f.Overlaps(lo, hi) {
      assert Shares(f, lo, hi, if f.smallest <= lo then lo else f.smallest);
    }
  }

  /** No file beyond the output level has a key in common with the range. */
  ghost predicate NothingBeyond(outputLevel: nat, levels: seq<seq<FileMeta>>, lo: UserKey, hi: UserKey) {
    forall l, j, k :: outputLevel < l < |levels| && 0 <= j < |levels[l]| ==> !Shares(levels[l][j], lo, hi, k)
  }

  /** The level scan of IsBottommostLevel, on the boundary range of its inputs. */
  ghost predicate BottommostFor(outputLevel: nat, levels: seq<seq<FileMeta>>, inputs: seq<InputFiles>,
                                lo: UserKey, hi: UserKey)
    requires inputs != [] && inputs[0].files != [] && (inputs[0].level == 0 ==> levels != [] && levels[0] != [])
  {
    && (inputs[0].level == 0 ==> inputs[0].files[|inputs[0].files| - 1] == levels[0][|levels[0]| - 1])
    && (forall l :: outputLevel < l < |levels| ==>
          levels[l] == [] || (outputLevel != 0 && !OverlapInLevel(levels[l], lo, hi)))
  }

  method IsBottommostLevel(outputLevel: nat, levels: seq<seq<FileMeta>>, inputs: seq<InputFiles>)
    returns (r: bool)
    requires inputs != [] && inputs[0].files != [] && (inputs[0].level == 0 ==> levels != [] && levels[0] != [])
    ensures r <==> exists lo, hi :: IsBoundary(inputs, lo, hi) && BottommostFor(outputLevel, levels, inputs, lo, hi)
    ensures forall lo, hi :: KeySortedLevels(levels) && IsBoundary(inputs, lo, hi) && lo <= hi && outputLevel > 0 ==>
              (r <==> OlderThanInputs(levels, inputs, []) && NothingBeyond(outputLevel, levels, lo, hi))
  {
    forall lo, hi | KeySortedLevels(levels) && IsBoundary(inputs, lo, hi) && lo <= hi && outputLevel > 0
      ensures BottommostFor(outputLevel, levels, inputs, lo, hi) <==>
              OlderThanInputs(levels, inputs, []) && NothingBeyond(outputLevel, levels, lo, hi)
    {
      BottommostIff(outputLevel, levels, inputs, lo, hi);
    }
    r := ScanLevels(outputLevel, levels, inputs);
    forall lo, hi | IsBoundary(inputs, lo, hi) ensures r <==> BottommostFor(outputLevel, levels, inputs, lo, hi) {
      forall lo', hi' | IsBoundary(inputs, lo', hi') ensures lo == lo' && hi == hi' {
        BoundaryUnique(inputs, lo, hi, lo', hi');
      }
    }
  }

  /** Below level 0 the scan decides exactly whether the inputs have anything older: a level-0 file after the last one
      picked, or a file beyond the output level with a key in the boundary range. */
  lemma BottommostIff(outputLevel: nat, levels: seq<seq<FileMeta>>, inputs: seq<InputFiles>, lo: UserKey, hi: UserKey)
    requires inputs != [] && inputs[0].files != [] && (inputs[0].level == 0 ==> levels != [] && levels[0] != [])
    requires KeySortedLevels(levels) && lo <= hi && outputLevel > 0
    ensures BottommostFor(outputLevel, levels, inputs, lo, hi) <==>
            OlderThanInputs(levels, inputs, []) && NothingBeyond(outputLevel, levels, lo, hi)
  {
    forall l, j | outputLevel < l < |levels| && 0 <= j < |levels[l]|
      ensures levels[l][j].Overlaps(lo, hi) <==> exists k :: Shares(levels[l][j], lo, hi, k)
    {
      assert KeySorted(levels[l]);
      OverlapsIff(levels[l][j], lo, hi);
    }
    LastIsOldest(levels, inputs);
  }

  lemma LastIsOldest(levels: seq<seq<FileMeta>>, inputs: seq<InputFiles>)
    requires inputs != [] && inputs[0].files != [] && (inputs[0].level == 0 ==> levels != [] && levels[0] != [])
    ensures OlderThanInputs(levels, inputs, []) <==>
            (inputs[0].level == 0 ==> inputs[0].files[|inputs[0].files| - 1] == levels[0][|levels[0]| - 1])
  {
    if inputs[0].level == 0 {
      assert levels[0][|levels[0]|..] == [];
    }
  }

  /** The scan, level by level. */
  method ScanLevels(outputLevel: nat, levels: seq<seq<FileMeta>>, inputs: seq<InputFiles>)
    returns (r: bool)
    requires inputs != [] && inputs[0].files != [] && (inputs[0].level == 0 ==> levels != [] && levels[0] != [])
    ensures r <==> exists lo, hi :: IsBoundary(inputs, lo, hi) && BottommostFor(outputLevel, levels, inputs, lo, hi)
  {
    if inputs[0].level == 0 && inputs[0].files[|inputs[0].files| - 1] != levels[0][|levels[0]| - 1] {
      return false;
    }
    var initialized, lo, hi := GetBoundaryKeys(inputs);
    var i := outputLevel + 1;
    while i < |levels|
      invariant outputLevel < i
      invariant forall l :: outputLevel < l < i && l < |levels| ==>
                  levels[l] == [] || (outputLevel != 0 && !OverlapInLevel(levels[l], lo, hi))
    {
      if |levels[i]| > 0 {
        if outputLevel == 0 || OverlapInLevel(levels[i], lo, hi) {
          forall lo', hi' | IsBoundary(inputs, lo', hi')
            ensures !BottommostFor(outputLevel, levels, inputs, lo', hi')
          {
            BoundaryUnique(inputs, lo, hi, lo', hi');
          }
          return false;
        }
      }
      i := i + 1;
    }
    assert BottommostFor(outputLevel, levels, inputs, lo, hi);
    r := true;
  }

  lemma BoundaryUnique(inputs: seq<InputFiles>, lo: UserKey, hi: UserKey, lo': UserKey, hi': UserKey)
    requires IsBoundary(inputs, lo, hi) && IsBoundary(inputs, lo', hi')
    ensures lo == lo' && hi == hi'
  {
    var a :| 0 <= a < |inputs| && inputs[a].files != [] && inputs[a].files[0].smallest == lo;
    var b :| 0 <= b < |inputs| && inputs[b].files != [] && inputs[b].files[0].smallest == lo';
    var c :| 0 <= c < |inputs| && inputs[c].files != [] && inputs[c].files[|inputs[c].files| - 1].largest == hi;
    var d :| 0 <= d < |inputs| && inputs[d].files != [] && inputs[d].files[|inputs[d].files| - 1].largest == hi';
  }

  lemma CoversMeansOverlaps(f: FileMeta, lo: UserKey, hi: UserKey, k: UserKey)
    requires lo <= k <= hi
    ensures f.Covers(k) ==> f.Overlaps(lo, hi)
  {
  }

  /** Level 0 is listed newest first: older than the inputs are the files after the last one picked. */
  ghost predicate OlderThanInputs(levels: seq<seq<FileMeta>>, inputs: seq<InputFiles>, older: seq<FileMeta>)
    requires inputs != [] && inputs[0].files != [] && (inputs[0].level == 0 ==> levels != [] && levels[0] != [])
  {
    if inputs[0].level != 0 then older == []
    else
      var last := inputs[0].files[|inputs[0].files| - 1];
      exists p :: 0 <= p < |levels[0]| && levels[0][p] == last && older == levels[0][p + 1..] && last !in older
  }

  /** c is built over these inputs: its flag is the answer of IsBottommostLevel. */
  ghost predicate BuiltOver(c: Compaction, inputs: seq<InputFiles>, lo: UserKey, hi: UserKey) {
    && inputs != [] && inputs[0].files != [] && (inputs[0].level == 0 ==> c.levels != [] && c.levels[0] != [])
    && IsBoundary(inputs, lo, hi) && OlderThanInputs(c.levels, inputs, c.olderLevel0)
    && (c.bottommost <==> BottommostFor(c.outputLevel, c.levels, inputs, lo, hi))
  }

  lemma SuffixHoldsLast(files: seq<FileMeta>, p: nat)
    requires p < |files|
    ensures p + 1 < |files| ==> files[|files| - 1] in files[p + 1..]
  {
    assert p + 1 < |files| ==> files[p + 1..][|files| - p - 2] == files[|files| - 1];
  }

  /** A bottommost compaction has no older file over any key of its boundary range, in either style. */
  lemma BottommostMeansNoOlderFile(c: Compaction, inputs: seq<InputFiles>, lo: UserKey, hi: UserKey, k: UserKey)
    requires BuiltOver(c, inputs, lo, hi) && c.bottommost && lo <= k <= hi
    ensures !OlderFile(c, k)
  {
    forall l, j | c.outputLevel < l < |c.levels| && 0 <= j < |c.levels[l]| ensures !c.levels[l][j].Covers(k) {
      CoversMeansOverlaps(c.levels[l][j], lo, hi, k);
    }
    if inputs[0].level == 0 {
      var last := inputs[0].files[|inputs[0].files| - 1];
      var p :| 0 <= p < |c.levels[0]| && c.levels[0][p] == last && c.olderLevel0 == c.levels[0][p + 1..] && last !in c.olderLevel0;
      SuffixHoldsLast(c.levels[0], p);
    }
  }
}
