/** Completing a user-chosen set of compaction input files so that no file with an overlapping key range is left
    behind at the same or a deeper level. */
module PickerSanitize {
  import opened DbFormat

  datatype SstFile = SstFile(number: nat, smallest: UserKey, largest: UserKey, beingCompacted: bool)

  datatype Outcome = Ok(files: set<nat>) | Aborted

  ghost predicate Between(lo: UserKey, k: UserKey, hi: UserKey) {
    lo <= k <= hi
  }

  /** Two key ranges touch. */
  ghost predicate Meet(lo: UserKey, hi: UserKey, f: SstFile) {
    lo <= f.largest && f.smallest <= hi
  }

  /** Touching ranges are those with a key in common. */
  lemma MeetIsSharedKey(lo: UserKey, hi: UserKey, f: SstFile)
    requires lo <= hi && f.smallest <= f.largest
    ensures Meet(lo, hi, f) <==> exists k: UserKey :: Between(lo, k, hi) && Between(f.smallest, k, f.largest)
  {
    if Meet(lo, hi, f) {
      var k := if lo >= f.smallest then lo else f.smallest;
      assert Between(lo, k, hi) && Between(f.smallest, k, f.largest);
    }
  }

  /** The case analysis decides whether two ranges touch. */
  predicate HaveOverlappingKeyRanges(lo: UserKey, hi: UserKey, b: SstFile): (r: bool)
    requires lo <= hi && b.smallest <= b.largest
    ensures r <==> Meet(lo, hi, b)
  {
    || (if lo >= b.smallest then lo <= b.largest else hi >= b.smallest)
    || (if hi <= b.largest then hi >= b.smallest else lo <= b.largest)
  }

  ghost predicate RangesOk(files: seq<SstFile>) {
    forall i :: 0 <= i < |files| ==> files[i].smallest <= files[i].largest
  }

  /** Key-sorted, with at most boundary keys shared. */
  ghost predicate KeySorted(files: seq<SstFile>) {
    forall i, j :: 0 <= i < j < |files| ==> files[i].largest <= files[j].smallest
  }

  ghost predicate At(levels: seq<seq<SstFile>>, l: int, i: int) {
    0 <= l < |levels| && 0 <= i < |levels[l]|
  }

  /** Levels below level 0 are key-sorted, and a file number names one file. */
  ghost predicate LevelsOk(levels: seq<seq<SstFile>>) {
    && (forall l :: 0 <= l < |levels| ==> RangesOk(levels[l]))
    && (forall l :: 1 <= l < |levels| ==> KeySorted(levels[l]))
    && (forall l, i, m, j :: At(levels, l, i) && At(levels, m, j) ==>
          (levels[l][i].number == levels[m][j].number ==> l == m && i == j))
  }

  /** A file at level `m` that touches the span from one chosen file to another is chosen too, both of them being
      at that level or above it. */
  ghost predicate SpanClosed(levels: seq<seq<SstFile>>, chosen: set<nat>, m: int) {
    forall l, i, k, j, y :: At(levels, l, i) && At(levels, k, j) && At(levels, m, y) && l <= m && k <= m ==>
      (levels[l][i].number in chosen && levels[k][j].number in chosen &&
       levels[l][i].smallest <= levels[m][y].largest && levels[m][y].smallest <= levels[k][j].largest ==>
         levels[m][y].number in chosen)
  }

  /** The chosen files of a level are consecutive. */
  ghost predicate NoGaps(files: seq<SstFile>, chosen: set<nat>) {
    forall i, j, k :: 0 <= i < j < k < |files| && files[i].number in chosen && files[k].number in chosen ==>
      files[j].number in chosen
  }

  /** What a compaction into `out` needs of its inputs: level-0 files without gaps in age, and nothing left behind
      that touches the span of the inputs at its level and above. */
  ghost predicate Complete(levels: seq<seq<SstFile>>, chosen: set<nat>, out: int)
    requires 0 <= out < |levels|
  {
    NoGaps(levels[0], chosen) && forall m :: 1 <= m <= out ==> SpanClosed(levels, chosen, m)
  }

  /** Every complete set that holds the input holds `chosen`. */
  ghost predicate Needed(levels: seq<seq<SstFile>>, input: set<nat>, chosen: set<nat>, out: int)
    requires 0 <= out < |levels|
  {
    forall whole :: input <= whole && Complete(levels, whole, out) ==> chosen <= whole
  }

  ghost predicate Idle(files: seq<SstFile>, chosen: set<nat>) {
    forall i :: 0 <= i < |files| && files[i].number in chosen ==> !files[i].beingCompacted
  }

  ghost predicate Within(f: SstFile, lo: UserKey, hi: UserKey) {
    lo <= f.smallest && f.largest <= hi
  }

  /** The chosen files of a level lie in the range. */
  ghost predicate Covered(files: seq<SstFile>, chosen: set<nat>, lo: UserKey, hi: UserKey) {
    forall i :: 0 <= i < |files| && files[i].number in chosen ==> Within(files[i], lo, hi)
  }

  /** The files of a level that touch the range are chosen. */
  ghost predicate Absorbed(files: seq<SstFile>, chosen: set<nat>, lo: UserKey, hi: UserKey) {
    forall i :: 0 <= i < |files| && Meet(lo, hi, files[i]) ==> files[i].number in chosen
  }

  // ------------------------------------------------------------------
  // One level
  // ------------------------------------------------------------------

  /** The first and last chosen file of a level. */
  method FindIncluded(files: seq<SstFile>, chosen: set<nat>) returns (first: int, last: int)
    ensures last == -1 <==> forall f :: 0 <= f < |files| ==> files[f].number !in chosen
    ensures last != -1 ==> 0 <= first <= last < |files| && files[first].number in chosen && files[last].number in chosen
    ensures last != -1 ==> forall f :: 0 <= f < |files| && files[f].number in chosen ==> first <= f <= last
  {
    first, last := |files|, -1;
    for f := 0 to |files|
      invariant last == -1 ==> first == |files| && forall g :: 0 <= g < f ==> files[g].number !in chosen
      invariant last != -1 ==> 0 <= first <= last < f && files[first].number in chosen && files[last].number in chosen
      invariant last != -1 ==> forall g :: 0 <= g < f && files[g].number in chosen ==> first <= g <= last
    {
      if files[f].number in chosen {
        if f < first {
          first := f;
        }
        if last < f {
          last := f;
        }
      }
    }
  }

  /** From one file to the other, each touches the next. */
  ghost predicate Linked(files: seq<SstFile>, from: int, to: int) {
    forall g :: 0 <= from <= g < to < |files| ==> files[g].largest >= files[g + 1].smallest
  }

  /** Neighbours that share a boundary key are drawn in. */
  method Expand(files: seq<SstFile>, first0: int, last0: int) returns (first: int, last: int)
    requires 0 <= first0 <= last0 < |files|
    ensures 0 <= first <= first0 && last0 <= last < |files|
    ensures first > 0 ==> files[first - 1].largest < files[first].smallest
    ensures last < |files| - 1 ==> files[last + 1].smallest > files[last].largest
    ensures Linked(files, first, first0) && Linked(files, last0, last)
  {
    first, last := first0, last0;
    while first > 0
      invariant 0 <= first <= first0 && Linked(files, first, first0)
    {
      if files[first - 1].largest < files[first].smallest {
        break;
      }
      first := first - 1;
    }
    while last < |files| - 1
      invariant last0 <= last < |files| && Linked(files, last0, last)
    {
      if files[last + 1].smallest > files[last].largest {
        break;
      }
      last := last + 1;
    }
  }

  /** Chooses files first..last, unless one of them is being compacted. */
  method Include(files: seq<SstFile>, first: int, last: int, chosen: set<nat>) returns (r: Outcome)
    requires 0 <= first <= last < |files|
    ensures r.Ok? ==> chosen <= r.files && forall f :: first <= f <= last ==> files[f].number in r.files && !files[f].beingCompacted
    ensures r.Ok? ==> forall n :: n in r.files && n !in chosen ==> exists f :: first <= f <= last && files[f].number == n
    ensures r.Aborted? <==> exists f :: first <= f <= last && files[f].beingCompacted
  {
    var out := chosen;
    for f := first to last + 1
      invariant chosen <= out
      invariant forall g :: first <= g < f ==> files[g].number in out && !files[g].beingCompacted
      invariant forall n :: n in out && n !in chosen ==> exists g :: first <= g < f && files[g].number == n
    {
      if files[f].beingCompacted {
        return Aborted;
      }
      out := out + {files[f].number};
    }
    r := Ok(out);
  }

  /** Widens the range to the level-0 files first..last. */
  method Hull(files: seq<SstFile>, first: int, last: int, lo0: UserKey, hi0: UserKey) returns (lo: UserKey, hi: UserKey)
    requires 0 <= first <= last < |files|
    ensures lo <= lo0 && hi0 <= hi && forall f :: first <= f <= last ==> Within(files[f], lo, hi)
    ensures lo == lo0 || exists f :: first <= f <= last && files[f].smallest == lo
    ensures hi == hi0 || exists f :: first <= f <= last && files[f].largest == hi
  {
    lo, hi := lo0, hi0;
    for f := first to last + 1
      invariant lo <= lo0 && hi0 <= hi && forall g :: first <= g < f ==> Within(files[g], lo, hi)
      invariant lo == lo0 || exists g :: first <= g < f && files[g].smallest == lo
      invariant hi == hi0 || exists g :: first <= g < f && files[g].largest == hi
    {
      if lo > files[f].smallest {
        lo := files[f].smallest;
      }
      if hi < files[f].largest {
        hi := files[f].largest;
      }
    }
  }

  /** Chooses every file of a level that touches the range, unless one of them is being compacted. */
  method Absorb(files: seq<SstFile>, lo: UserKey, hi: UserKey, chosen: set<nat>) returns (r: Outcome)
    requires lo <= hi && RangesOk(files)
    ensures r.Ok? ==> chosen <= r.files && Absorbed(files, r.files, lo, hi)
    ensures r.Ok? ==> forall n :: n in r.files && n !in chosen ==>
      exists f :: 0 <= f < |files| && files[f].number == n && Meet(lo, hi, files[f]) && !files[f].beingCompacted
    ensures r.Aborted? <==> exists f :: 0 <= f < |files| && Meet(lo, hi, files[f]) && files[f].beingCompacted
  {
    var out := chosen;
    for f := 0 to |files|
      invariant chosen <= out
      invariant forall g :: 0 <= g < f && Meet(lo, hi, files[g]) ==> files[g].number in out && !files[g].beingCompacted
      invariant forall n :: n in out && n !in chosen ==>
        exists g :: 0 <= g < f && files[g].number == n && Meet(lo, hi, files[g]) && !files[g].beingCompacted
    {
      if HaveOverlappingKeyRanges(lo, hi, files[f]) {
        if files[f].beingCompacted {
          return Aborted;
        }
        out := out + {files[f].number};
      }
    }
    r := Ok(out);
  }

  // ------------------------------------------------------------------
  // Why one level is finished with: a file that touches the widened range lies inside it
  // ------------------------------------------------------------------

  /** The range reached after files first..last of a sorted level were included holds every file of that level it
      touches, given that the files touching the earlier range (if any) are among first..last. */
  lemma TouchingMeansInside(files: seq<SstFile>, first: int, last: int, old_: Option<(UserKey, UserKey)>, lo: UserKey, hi: UserKey, y: int)
    requires RangesOk(files) && KeySorted(files) && 0 <= first <= last < |files| && 0 <= y < |files|
    requires first > 0 ==> files[first - 1].largest < files[first].smallest
    requires last < |files| - 1 ==> files[last + 1].smallest > files[last].largest
    requires old_.Some? ==> old_.value.0 <= old_.value.1
    requires old_.Some? && Meet(old_.value.0, old_.value.1, files[y]) ==> first <= y <= last
    requires lo == (if old_.Some? && old_.value.0 <= files[first].smallest then old_.value.0 else files[first].smallest)
    requires hi == (if old_.Some? && old_.value.1 >= files[last].largest then old_.value.1 else files[last].largest)
    requires Meet(lo, hi, files[y])
    ensures Within(files[y], lo, hi)
  {
    assert y < first - 1 ==> files[y].largest <= files[first - 1].smallest;
    assert y > last + 1 ==> files[last + 1].largest <= files[y].smallest;
    assert first < y ==> files[first].largest <= files[y].smallest;
    assert y < last ==> files[y].largest <= files[last].smallest;
  }

  // ------------------------------------------------------------------
  // The state between levels
  // ------------------------------------------------------------------

  type Range = Option<(UserKey, UserKey)>

  /** The range starts at a chosen file and ends at a chosen file, both above level `l`. */
  ghost predicate Spanned(levels: seq<seq<SstFile>>, chosen: set<nat>, l: int, lo: UserKey, hi: UserKey) {
    && (exists k, i :: At(levels, k, i) && k < l && levels[k][i].number in chosen && levels[k][i].smallest == lo)
    && (exists k, i :: At(levels, k, i) && k < l && levels[k][i].number in chosen && levels[k][i].largest == hi)
  }

  /** Levels above `l` are finished with. */
  ghost predicate Progress(levels: seq<seq<SstFile>>, chosen: set<nat>, l: int, out: int, range: Range)
    requires 0 <= l <= out + 1 <= |levels|
  {
    && (range.None? ==> forall k, i :: At(levels, k, i) && k < l ==> levels[k][i].number !in chosen)
    && (range.Some? ==>
          && range.value.0 <= range.value.1
          && Spanned(levels, chosen, l, range.value.0, range.value.1)
          && (forall k :: 0 <= k < l ==> Covered(levels[k], chosen, range.value.0, range.value.1))
          && (forall m :: l <= m <= out && 1 <= m ==> Absorbed(levels[m], chosen, range.value.0, range.value.1)))
    && (l > 0 ==> NoGaps(levels[0], chosen))
    && (forall m :: 1 <= m < l ==> SpanClosed(levels, chosen, m))
    && (forall k :: 0 <= k < l ==> Idle(levels[k], chosen))
  }

  /** The file is idle, touches the range, and carries the number. */
  ghost predicate Joins(levels: seq<seq<SstFile>>, n: nat, m: int, f: int, lo: UserKey, hi: UserKey) {
    At(levels, m, f) && levels[m][f].number == n && Meet(lo, hi, levels[m][f]) && !levels[m][f].beingCompacted
  }

  /** Files chosen on the way belong to level `from` or deeper, touch the range, and are idle. */
  ghost predicate AddedBelow(levels: seq<seq<SstFile>>, before: set<nat>, after: set<nat>, from: int, out: int, lo: UserKey, hi: UserKey) {
    before <= after && forall n :: n in after && n !in before ==> exists m, f :: from <= m <= out && Joins(levels, n, m, f, lo, hi)
  }

  /** A file being compacted that every complete set holding the input needs. */
  ghost predicate Doomed(levels: seq<seq<SstFile>>, input: set<nat>, out: int)
    requires 0 <= out < |levels|
  {
    exists k, i :: At(levels, k, i) && k <= out && levels[k][i].beingCompacted && Needed(levels, input, {levels[k][i].number}, out)
  }

  /** What touches a span of needed files is needed. */
  lemma SpanNeeded(levels: seq<seq<SstFile>>, input: set<nat>, chosen: set<nat>, l: int, m: int, y: int, out: int, lo: UserKey, hi: UserKey)
    requires 0 <= out < |levels| && Needed(levels, input, chosen, out) && Spanned(levels, chosen, l, lo, hi)
    requires 1 <= m <= out && l <= m + 1 && At(levels, m, y) && Meet(lo, hi, levels[m][y])
    ensures Needed(levels, input, {levels[m][y].number}, out)
  {
    var k, i :| At(levels, k, i) && k < l && levels[k][i].number in chosen && levels[k][i].smallest == lo;
    var j, z :| At(levels, j, z) && j < l && levels[j][z].number in chosen && levels[j][z].largest == hi;
    forall whole | input <= whole && Complete(levels, whole, out) ensures levels[m][y].number in whole {
      assert SpanClosed(levels, whole, m);
    }
  }

  lemma NeededUnion(levels: seq<seq<SstFile>>, input: set<nat>, before: set<nat>, after: set<nat>, out: int)
    requires 0 <= out < |levels| && Needed(levels, input, before, out)
    requires forall n :: n in after && n !in before ==> Needed(levels, input, {n}, out)
    ensures Needed(levels, input, after, out)
  {
    forall whole, n | input <= whole && Complete(levels, whole, out) && n in after ensures n in whole {
      assert n !in before ==> {n} <= whole;
    }
  }

  /** The files a range touches at the levels from `from` down to `out` join the chosen ones. */
  method AbsorbDeeper(levels: seq<seq<SstFile>>, from: int, out: int, lo: UserKey, hi: UserKey, chosen: set<nat>)
    returns (r: Outcome)
    requires LevelsOk(levels) && 0 <= from && out < |levels| && lo <= hi
    ensures r.Ok? ==> AddedBelow(levels, chosen, r.files, from, out, lo, hi)
    ensures r.Ok? ==> forall m :: from <= m <= out ==> Absorbed(levels[m], r.files, lo, hi)
    ensures r.Aborted? ==> exists m, f :: At(levels, m, f) && from <= m <= out && Meet(lo, hi, levels[m][f]) && levels[m][f].beingCompacted
  {
    r := Ok(chosen);
    var m := from;
    while m <= out
      invariant from <= m && r.Ok? && AddedBelow(levels, chosen, r.files, from, out, lo, hi)
      invariant forall k :: from <= k < m && k <= out ==> Absorbed(levels[k], r.files, lo, hi)
    {
      ghost var before := r.files;
      r := Absorb(levels[m], lo, hi, r.files);
      if r.Aborted? {
        ghost var f :| 0 <= f < |levels[m]| && Meet(lo, hi, levels[m][f]) && levels[m][f].beingCompacted;
        assert At(levels, m, f);
        return;
      }
      forall n | n in r.files && n !in before
        ensures exists k, f :: from <= k <= out && Joins(levels, n, k, f, lo, hi)
      {
        var f :| 0 <= f < |levels[m]| && levels[m][f].number == n && Meet(lo, hi, levels[m][f]) && !levels[m][f].beingCompacted;
        assert Joins(levels, n, m, f, lo, hi);
      }
      m := m + 1;
    }
  }

  // ------------------------------------------------------------------
  // Finishing a level
  // ------------------------------------------------------------------

  ghost predicate SameAbove(levels: seq<seq<SstFile>>, before: set<nat>, after: set<nat>, l: int) {
    forall k, i :: At(levels, k, i) && k < l ==> (levels[k][i].number in before <==> levels[k][i].number in after)
  }

  /** Choosing files of a level and below leaves the choices above it alone. */
  lemma AboveUnchanged(levels: seq<seq<SstFile>>, before: set<nat>, after: set<nat>, l: int)
    requires LevelsOk(levels) && before <= after
    requires forall n :: n in after && n !in before ==> exists m, f :: At(levels, m, f) && l <= m && levels[m][f].number == n
    ensures SameAbove(levels, before, after, l)
  {
  }

  lemma SpanFollows(levels: seq<seq<SstFile>>, chosen: set<nat>, l: int, lo: UserKey, hi: UserKey)
    requires 1 <= l < |levels| && (forall k :: 0 <= k <= l ==> Covered(levels[k], chosen, lo, hi))
    requires Absorbed(levels[l], chosen, lo, hi)
    ensures SpanClosed(levels, chosen, l)
  {
  }

  lemma SpanStays(levels: seq<seq<SstFile>>, before: set<nat>, after: set<nat>, l: int, m: int)
    requires SameAbove(levels, before, after, l) && m < l && SpanClosed(levels, before, m)
    ensures SpanClosed(levels, after, m)
  {
  }

  /** A level without chosen files needs nothing. */
  lemma SkipLevel(levels: seq<seq<SstFile>>, chosen: set<nat>, l: int, out: int, range: Range)
    requires 0 <= l <= out < |levels| && Progress(levels, chosen, l, out, range)
    requires forall f :: 0 <= f < |levels[l]| ==> levels[l][f].number !in chosen
    ensures Progress(levels, chosen, l + 1, out, range)
  {
    if l >= 1 {
      if range.Some? {
        SpanFollows(levels, chosen, l, range.value.0, range.value.1);
      }
    }
  }

  /** The first level at or below `l` that is sorted by key. */
  function KeyedFrom(l: int): int {
    if l >= 1 then l else 1
  }

  /** The level's files are settled: they lie in the range, they are idle, and touching the range means lying in it. */
  ghost predicate Settled(files: seq<SstFile>, chosen: set<nat>, lo: UserKey, hi: UserKey, l: int) {
    && Covered(files, chosen, lo, hi)
    && Idle(files, chosen)
    && (l >= 1 ==> forall y :: 0 <= y < |files| && Meet(lo, hi, files[y]) ==> Within(files[y], lo, hi))
    && (l < 1 ==> NoGaps(files, chosen))
  }

  lemma StaySettled(levels: seq<seq<SstFile>>, before: set<nat>, after: set<nat>, l: int, out: int, lo: UserKey, hi: UserKey)
    requires LevelsOk(levels) && 0 <= l < |levels| && Settled(levels[l], before, lo, hi, l)
    requires AddedBelow(levels, before, after, KeyedFrom(l), out, lo, hi)
    ensures Settled(levels[l], after, lo, hi, l)
  {
    forall i | 0 <= i < |levels[l]| && levels[l][i].number in after && levels[l][i].number !in before
      ensures l >= 1 && Within(levels[l][i], lo, hi) && !levels[l][i].beingCompacted
    {
      var n := levels[l][i].number;
      var m, f :| KeyedFrom(l) <= m <= out && Joins(levels, n, m, f, lo, hi);
      assert At(levels, l, i) && At(levels, m, f);
    }
  }

  lemma RangeGrows(levels: seq<seq<SstFile>>, before: set<nat>, after: set<nat>, l: int, range: Range, lo: UserKey, hi: UserKey)
    requires 0 <= l < |levels| && SameAbove(levels, before, after, l)
    requires range.None? ==> forall k, i :: At(levels, k, i) && k < l ==> levels[k][i].number !in before
    requires range.Some? ==> lo <= range.value.0 && range.value.1 <= hi
    requires range.Some? ==> forall k :: 0 <= k < l ==> Covered(levels[k], before, range.value.0, range.value.1)
    ensures forall k :: 0 <= k < l ==> Covered(levels[k], after, lo, hi)
  {
    forall k, i | 0 <= k < l && 0 <= i < |levels[k]| && levels[k][i].number in after ensures Within(levels[k][i], lo, hi) {
      assert At(levels, k, i);
    }
  }

  lemma IdleAbove(levels: seq<seq<SstFile>>, before: set<nat>, after: set<nat>, l: int)
    requires 0 <= l < |levels| && SameAbove(levels, before, after, l) && forall k :: 0 <= k < l ==> Idle(levels[k], before)
    requires l > 0 ==> NoGaps(levels[0], before)
    ensures forall k :: 0 <= k < l ==> Idle(levels[k], after)
    ensures l > 0 ==> NoGaps(levels[0], after)
  {
    forall k, i | 0 <= k < l && 0 <= i < |levels[k]| && levels[k][i].number in after ensures !levels[k][i].beingCompacted {
      assert At(levels, k, i);
    }
    if l > 0 {
      forall i | 0 <= i < |levels[0]| ensures levels[0][i].number in before <==> levels[0][i].number in after {
        assert At(levels, 0, i);
      }
    }
  }

  lemma ChoicesAboveStay(levels: seq<seq<SstFile>>, before: set<nat>, chosen: set<nat>, after: set<nat>, l: int, out: int,
                         lo: UserKey, hi: UserKey)
    requires LevelsOk(levels) && Joined(levels, l, before, chosen)
    requires AddedBelow(levels, chosen, after, KeyedFrom(l), out, lo, hi)
    ensures SameAbove(levels, before, after, l)
  {
    forall n | n in after && n !in before
      ensures exists m, f :: At(levels, m, f) && l <= m && levels[m][f].number == n
    {
      if n !in chosen {
        var m, f :| KeyedFrom(l) <= m <= out && Joins(levels, n, m, f, lo, hi);
        assert At(levels, m, f);
      }
    }
    AboveUnchanged(levels, before, after, l);
  }

  lemma SpansStay(levels: seq<seq<SstFile>>, before: set<nat>, after: set<nat>, l: int)
    requires SameAbove(levels, before, after, l) && forall m :: 1 <= m < l ==> SpanClosed(levels, before, m)
    ensures forall m :: 1 <= m < l ==> SpanClosed(levels, after, m)
  {
    forall m | 1 <= m < l ensures SpanClosed(levels, after, m) {
      SpanStays(levels, before, after, l, m);
    }
  }

  lemma SpannedStays(levels: seq<seq<SstFile>>, chosen: set<nat>, after: set<nat>, l: int, lo: UserKey, hi: UserKey)
    requires Spanned(levels, chosen, l, lo, hi) && chosen <= after
    ensures Spanned(levels, after, l, lo, hi)
  {
  }

  /** The pieces of the state after a level. */
  lemma MakeProgress(levels: seq<seq<SstFile>>, after: set<nat>, l: int, out: int, lo: UserKey, hi: UserKey)
    requires 0 <= l <= out < |levels| && lo <= hi && Spanned(levels, after, l + 1, lo, hi)
    requires Settled(levels[l], after, lo, hi, l) && (forall k :: 0 <= k < l ==> Covered(levels[k], after, lo, hi))
    requires forall m :: KeyedFrom(l) <= m <= out ==> Absorbed(levels[m], after, lo, hi)
    requires (l > 0 ==> NoGaps(levels[0], after)) && (forall k :: 0 <= k < l ==> Idle(levels[k], after))
    requires forall m :: 1 <= m < l ==> SpanClosed(levels, after, m)
    ensures Progress(levels, after, l + 1, out, Some((lo, hi)))
  {
    if l >= 1 {
      SpanFollows(levels, after, l, lo, hi);
    }
  }

  lemma FinishLevel(levels: seq<seq<SstFile>>, before: set<nat>, chosen: set<nat>, after: set<nat>, l: int, out: int,
                    range: Range, lo: UserKey, hi: UserKey)
    requires LevelsOk(levels) && 0 <= l <= out < |levels| && Progress(levels, before, l, out, range)
    requires Joined(levels, l, before, chosen) && lo <= hi && Settled(levels[l], chosen, lo, hi, l)
    requires AddedBelow(levels, chosen, after, KeyedFrom(l), out, lo, hi)
    requires range.Some? ==> lo <= range.value.0 && range.value.1 <= hi
    requires Spanned(levels, chosen, l + 1, lo, hi)
    requires forall m :: KeyedFrom(l) <= m <= out ==> Absorbed(levels[m], after, lo, hi)
    ensures Progress(levels, after, l + 1, out, Some((lo, hi)))
  {
    StaySettled(levels, chosen, after, l, out, lo, hi);
    SpannedStays(levels, chosen, after, l + 1, lo, hi);
    ChoicesAboveStay(levels, before, chosen, after, l, out, lo, hi);
    AboveStaysDone(levels, before, after, l, out, range, lo, hi);
    MakeProgress(levels, after, l, out, lo, hi);
  }

  /** What held of the levels above still holds. */
  lemma AboveStaysDone(levels: seq<seq<SstFile>>, before: set<nat>, after: set<nat>, l: int, out: int, range: Range,
                       lo: UserKey, hi: UserKey)
    requires 0 <= l <= out < |levels| && Progress(levels, before, l, out, range) && SameAbove(levels, before, after, l)
    requires range.Some? ==> lo <= range.value.0 && range.value.1 <= hi
    ensures forall k :: 0 <= k < l ==> Covered(levels[k], after, lo, hi)
    ensures (l > 0 ==> NoGaps(levels[0], after)) && (forall k :: 0 <= k < l ==> Idle(levels[k], after))
    ensures forall m :: 1 <= m < l ==> SpanClosed(levels, after, m)
  {
    RangeGrows(levels, before, after, l, range, lo, hi);
    IdleAbove(levels, before, after, l);
    SpansStay(levels, before, after, l);
  }

  // ------------------------------------------------------------------
  // Every file included is needed
  // ------------------------------------------------------------------

  lemma {:induction false} LinkedDown(levels: seq<seq<SstFile>>, whole: set<nat>, m: int, g: int, top: int)
    requires 0 <= m < |levels| && RangesOk(levels[m]) && KeySorted(levels[m]) && SpanClosed(levels, whole, m)
    requires 0 <= g <= top < |levels[m]| && Linked(levels[m], g, top) && levels[m][top].number in whole
    ensures levels[m][g].number in whole
    decreases top - g
  {
    if g < top {
      LinkedDown(levels, whole, m, g + 1, top);
      assert At(levels, m, g + 1) && At(levels, m, g);
      assert levels[m][g].largest >= levels[m][g + 1].smallest;
      assert levels[m][g].smallest <= levels[m][g].largest <= levels[m][g + 1].smallest <= levels[m][g + 1].largest;
    }
  }

  lemma {:induction false} LinkedUp(levels: seq<seq<SstFile>>, whole: set<nat>, m: int, bottom: int, g: int)
    requires 0 <= m < |levels| && RangesOk(levels[m]) && KeySorted(levels[m]) && SpanClosed(levels, whole, m)
    requires 0 <= bottom <= g < |levels[m]| && Linked(levels[m], bottom, g) && levels[m][bottom].number in whole
    ensures levels[m][g].number in whole
    decreases g - bottom
  {
    if bottom < g {
      LinkedUp(levels, whole, m, bottom, g - 1);
      assert At(levels, m, g - 1) && At(levels, m, g);
      assert levels[m][g - 1].largest >= levels[m][g - 1 + 1].smallest;
      assert levels[m][g - 1].smallest <= levels[m][g - 1].largest <= levels[m][g].smallest <= levels[m][g].largest;
    }
  }

  /** Files first..last, drawn in from the chosen first0..last0, are in every complete set that holds the input. */
  lemma IncludedNeeded(levels: seq<seq<SstFile>>, input: set<nat>, chosen: set<nat>, l: int, out: int,
                       first0: int, last0: int, first: int, last: int, f: int)
    requires LevelsOk(levels) && 0 <= l <= out < |levels| && Needed(levels, input, chosen, out)
    requires 0 <= first <= first0 <= last0 <= last < |levels[l]| && first <= f <= last
    requires levels[l][first0].number in chosen && levels[l][last0].number in chosen
    requires if l == 0 then first == first0 && last == last0 else Linked(levels[l], first, first0) && Linked(levels[l], last0, last)
    ensures Needed(levels, input, {levels[l][f].number}, out)
  {
    forall whole | input <= whole && Complete(levels, whole, out) ensures levels[l][f].number in whole {
      if l >= 1 {
        assert SpanClosed(levels, whole, l);
        if f < first0 {
          LinkedDown(levels, whole, l, f, first0);
        } else if f > last0 {
          LinkedUp(levels, whole, l, last0, f);
        } else {
          assert At(levels, l, first0) && At(levels, l, last0) && At(levels, l, f);
        }
      }
    }
  }

  /** The range after files first..last joined: it holds them, it starts and ends where it did or at one of them,
      and on a key-sorted level it holds every file it touches. */
  method Widen(files: seq<SstFile>, l: int, range: Range, first0: int, first: int, last: int) returns (lo: UserKey, hi: UserKey)
    requires RangesOk(files) && 0 <= first <= first0 <= last < |files|
    requires range.Some? ==> range.value.0 <= range.value.1
    requires l != 0 ==> KeySorted(files)
    requires l != 0 && first > 0 ==> files[first - 1].largest < files[first].smallest
    requires l != 0 && last < |files| - 1 ==> files[last + 1].smallest > files[last].largest
    requires l != 0 && range.Some? ==> forall y :: 0 <= y < |files| && Meet(range.value.0, range.value.1, files[y]) ==> first <= y <= last
    ensures forall f :: first <= f <= last ==> Within(files[f], lo, hi)
    ensures range.Some? ==> lo <= range.value.0 && range.value.1 <= hi
    ensures (range.Some? && lo == range.value.0) || exists f :: first <= f <= last && files[f].smallest == lo
    ensures (range.Some? && hi == range.value.1) || exists f :: first <= f <= last && files[f].largest == hi
    ensures l != 0 ==> forall y :: 0 <= y < |files| && Meet(lo, hi, files[y]) ==> Within(files[y], lo, hi)
  {
    if range.Some? {
      lo, hi := range.value.0, range.value.1;
    } else {
      lo, hi := files[first0].smallest, files[first0].largest;
    }
    if l == 0 {
      lo, hi := Hull(files, first, last, lo, hi);
    } else {
      if lo > files[first].smallest {
        lo := files[first].smallest;
      }
      if hi < files[last].largest {
        hi := files[last].largest;
      }
      assert first < first0 ==> files[first].largest <= files[first0].smallest;
      assert first0 < last ==> files[first0].largest <= files[last].smallest;
      forall y | 0 <= y < |files| && Meet(lo, hi, files[y]) ensures Within(files[y], lo, hi) {
        TouchingMeansInside(files, first, last, range, lo, hi, y);
      }
      forall f | first <= f <= last ensures Within(files[f], lo, hi) {
        assert first < f ==> files[first].largest <= files[f].smallest;
        assert f < last ==> files[f].largest <= files[last].smallest;
      }
    }
  }

  lemma SpannedAfter(levels: seq<seq<SstFile>>, before: set<nat>, after: set<nat>, l: int, range: Range, first: int, last: int,
                     lo: UserKey, hi: UserKey)
    requires 0 <= l < |levels| && 0 <= first <= last < |levels[l]| && before <= after
    requires forall f :: first <= f <= last ==> levels[l][f].number in after
    requires range.Some? ==> Spanned(levels, before, l, range.value.0, range.value.1)
    requires (range.Some? && lo == range.value.0) || exists f :: first <= f <= last && levels[l][f].smallest == lo
    requires (range.Some? && hi == range.value.1) || exists f :: first <= f <= last && levels[l][f].largest == hi
    ensures Spanned(levels, after, l + 1, lo, hi)
  {
    if f :| first <= f <= last && levels[l][f].smallest == lo {
      assert At(levels, l, f) && l < l + 1;
    }
    if f :| first <= f <= last && levels[l][f].largest == hi {
      assert At(levels, l, f) && l < l + 1;
    }
  }

  /** The level's files from the first to the last chosen one, and those linked to them, join the chosen ones. */
  method IncludeLevel(levels: seq<seq<SstFile>>, l: int, out: int, ghost input: set<nat>, chosen: set<nat>, first0: int, last0: int)
    returns (r: Outcome, first: int, last: int)
    requires LevelsOk(levels) && 0 <= l <= out < |levels| && Needed(levels, input, chosen, out)
    requires 0 <= first0 <= last0 < |levels[l]| && levels[l][first0].number in chosen && levels[l][last0].number in chosen
    ensures 0 <= first <= first0 <= last0 <= last < |levels[l]|
    ensures l != 0 && first > 0 ==> levels[l][first - 1].largest < levels[l][first].smallest
    ensures l != 0 && last < |levels[l]| - 1 ==> levels[l][last + 1].smallest > levels[l][last].largest
    ensures l == 0 ==> first == first0 && last == last0
    ensures r.Ok? ==> chosen <= r.files && Needed(levels, input, r.files, out)
    ensures r.Ok? ==> forall f :: first <= f <= last ==> levels[l][f].number in r.files && !levels[l][f].beingCompacted
    ensures r.Ok? ==> forall n :: n in r.files && n !in chosen ==> exists f :: first <= f <= last && levels[l][f].number == n
    ensures r.Aborted? ==> Doomed(levels, input, out)
  {
    first, last := first0, last0;
    if l != 0 {
      first, last := Expand(levels[l], first0, last0);
    }
    forall f | first <= f <= last ensures Needed(levels, input, {levels[l][f].number}, out) {
      IncludedNeeded(levels, input, chosen, l, out, first0, last0, first, last, f);
    }
    r := Include(levels[l], first, last, chosen);
    if r.Aborted? {
      ghost var f :| first <= f <= last && levels[l][f].beingCompacted;
      assert At(levels, l, f);
    } else {
      NeededUnion(levels, input, chosen, r.files, out);
    }
  }

  lemma LevelSettled(levels: seq<seq<SstFile>>, l: int, before: set<nat>, after: set<nat>, first0: int, last0: int, first: int, last: int, lo: UserKey, hi: UserKey)
    requires LevelsOk(levels) && 0 <= l < |levels| && 0 <= first <= first0 <= last0 <= last < |levels[l]|
    requires forall f :: 0 <= f < |levels[l]| && levels[l][f].number in before ==> first0 <= f <= last0
    requires forall f :: first <= f <= last ==> levels[l][f].number in after && !levels[l][f].beingCompacted && Within(levels[l][f], lo, hi)
    requires forall n :: n in after && n !in before ==> exists f :: first <= f <= last && levels[l][f].number == n
    requires l != 0 ==> forall y :: 0 <= y < |levels[l]| && Meet(lo, hi, levels[l][y]) ==> Within(levels[l][y], lo, hi)
    ensures Settled(levels[l], after, lo, hi, l) && lo <= hi
  {
    forall i | 0 <= i < |levels[l]| && levels[l][i].number in after ensures first <= i <= last {
      if levels[l][i].number !in before {
        var f :| first <= f <= last && levels[l][f].number == levels[l][i].number;
        assert At(levels, l, i) && At(levels, l, f);
      }
    }
    assert Within(levels[l][first], lo, hi);
    assert RangesOk(levels[l]);
  }

  // ------------------------------------------------------------------
  // The whole algorithm
  // ------------------------------------------------------------------

  ghost predicate Joined(levels: seq<seq<SstFile>>, l: int, before: set<nat>, after: set<nat>) {
    before <= after && forall n :: n in after && n !in before ==> exists f :: At(levels, l, f) && levels[l][f].number == n
  }

  /** The level's own files join, and the range widens over them. */
  method ChooseHere(levels: seq<seq<SstFile>>, l: int, out: int, ghost input: set<nat>, chosen: set<nat>, range: Range,
                    first0: int, last0: int) returns (r: Outcome, lo: UserKey, hi: UserKey)
    requires LevelsOk(levels) && 0 <= l <= out < |levels| && Needed(levels, input, chosen, out)
    requires range.Some? ==> range.value.0 <= range.value.1 && Spanned(levels, chosen, l, range.value.0, range.value.1)
    requires range.Some? && l >= 1 ==> Absorbed(levels[l], chosen, range.value.0, range.value.1)
    requires 0 <= first0 <= last0 < |levels[l]| && levels[l][first0].number in chosen && levels[l][last0].number in chosen
    requires forall f :: 0 <= f < |levels[l]| && levels[l][f].number in chosen ==> first0 <= f <= last0
    ensures r.Ok? ==> Joined(levels, l, chosen, r.files) && Needed(levels, input, r.files, out)
    ensures r.Ok? ==> lo <= hi && Settled(levels[l], r.files, lo, hi, l) && Spanned(levels, r.files, l + 1, lo, hi)
    ensures r.Ok? && range.Some? ==> lo <= range.value.0 && range.value.1 <= hi
    ensures r.Aborted? ==> Doomed(levels, input, out)
  {
    var first, last;
    r, first, last := IncludeLevel(levels, l, out, input, chosen, first0, last0);
    lo, hi := Widen(levels[l], l, range, first0, first, last);
    if r.Ok? {
      SpannedAfter(levels, chosen, r.files, l, range, first, last, lo, hi);
      LevelSettled(levels, l, chosen, r.files, first0, last0, first, last, lo, hi);
      assert forall f :: first <= f <= last ==> At(levels, l, f);
    }
  }

  method Deepen(levels: seq<seq<SstFile>>, l: int, out: int, ghost input: set<nat>, ghost before: set<nat>, included: set<nat>,
                ghost range: Range, lo: UserKey, hi: UserKey) returns (r: Outcome)
    requires LevelsOk(levels) && 0 <= l <= out < |levels| && Needed(levels, input, included, out)
    requires Progress(levels, before, l, out, range)
    requires Joined(levels, l, before, included) && lo <= hi && Settled(levels[l], included, lo, hi, l) && Spanned(levels, included, l + 1, lo, hi)
    requires range.Some? ==> lo <= range.value.0 && range.value.1 <= hi
    ensures r.Ok? ==> included <= r.files && Needed(levels, input, r.files, out)
    ensures r.Ok? ==> Progress(levels, r.files, l + 1, out, Some((lo, hi)))
    ensures r.Aborted? ==> Doomed(levels, input, out)
  {
    r := AbsorbDeeper(levels, KeyedFrom(l), out, lo, hi, included);
    forall m, y | KeyedFrom(l) <= m <= out && At(levels, m, y) && Meet(lo, hi, levels[m][y])
      ensures Needed(levels, input, {levels[m][y].number}, out)
    {
      SpanNeeded(levels, input, included, l + 1, m, y, out, lo, hi);
    }
    if r.Ok? {
      FinishLevel(levels, before, included, r.files, l, out, range, lo, hi);
      NeededUnion(levels, input, included, r.files, out);
    }
  }

  method ProcessLevel(levels: seq<seq<SstFile>>, l: int, out: int, ghost input: set<nat>, chosen: set<nat>, range: Range)
    returns (r: Outcome, next: Range)
    requires LevelsOk(levels) && 0 <= l <= out < |levels| && Needed(levels, input, chosen, out)
    requires Progress(levels, chosen, l, out, range)
    ensures r.Ok? ==> chosen <= r.files && Needed(levels, input, r.files, out) && Progress(levels, r.files, l + 1, out, next)
    ensures r.Aborted? ==> Doomed(levels, input, out)
  {
    next := range;
    var first0, last0 := FindIncluded(levels[l], chosen);
    if last0 == -1 {
      SkipLevel(levels, chosen, l, out, range);
      return Ok(chosen), range;
    }
    var lo, hi;
    r, lo, hi := ChooseHere(levels, l, out, input, chosen, range, first0, last0);
    if r.Aborted? {
      return;
    }
    var included := r.files;
    r := Deepen(levels, l, out, input, chosen, included, range, lo, hi);
    next := Some((lo, hi));
  }

  lemma NotDoomed(levels: seq<seq<SstFile>>, input: set<nat>, chosen: set<nat>, out: int)
    requires 0 <= out < |levels| && input <= chosen && Complete(levels, chosen, out)
    requires forall k :: 0 <= k <= out ==> Idle(levels[k], chosen)
    ensures !Doomed(levels, input, out)
  {
    forall k, i | At(levels, k, i) && k <= out && Needed(levels, input, {levels[k][i].number}, out)
      ensures !levels[k][i].beingCompacted
    {
      assert {levels[k][i].number} <= chosen;
      assert Idle(levels[k], chosen);
    }
  }

  /** No file that overlaps a chosen one is left behind at its level or deeper. */
  ghost predicate NothingLeft(levels: seq<seq<SstFile>>, chosen: set<nat>, out: int) {
    forall l, i, m, y :: At(levels, l, i) && At(levels, m, y) && l <= m <= out && m >= 1 ==>
      (levels[l][i].number in chosen && Meet(levels[l][i].smallest, levels[l][i].largest, levels[m][y]) ==>
         levels[m][y].number in chosen)
  }

  lemma CompleteLeavesNothing(levels: seq<seq<SstFile>>, chosen: set<nat>, out: int)
    requires 0 <= out < |levels| && Complete(levels, chosen, out)
    ensures NothingLeft(levels, chosen, out)
  {
    forall l, i, m, y | At(levels, l, i) && At(levels, m, y) && l <= m <= out && m >= 1 && levels[l][i].number in chosen &&
        Meet(levels[l][i].smallest, levels[l][i].largest, levels[m][y])
      ensures levels[m][y].number in chosen
    {
      assert SpanClosed(levels, chosen, m);
    }
  }

  /** On success the result is the least complete set that holds the input, and none of its files is being compacted;
      the request is refused exactly when that set holds a file that is. */
  method SanitizeCompactionInputFilesForAllLevels(inputFiles: set<nat>, levels: seq<seq<SstFile>>, outputLevel: int)
    returns (r: Outcome)
    requires LevelsOk(levels) && 0 <= outputLevel < |levels|
    ensures r.Ok? ==> inputFiles <= r.files && Complete(levels, r.files, outputLevel) && NothingLeft(levels, r.files, outputLevel)
    ensures r.Ok? ==> Needed(levels, inputFiles, r.files, outputLevel)
    ensures r.Ok? ==> forall k :: 0 <= k <= outputLevel ==> Idle(levels[k], r.files)
    ensures r.Aborted? <==> Doomed(levels, inputFiles, outputLevel)
  {
    r := Ok(inputFiles);
    var range := None;
    for l := 0 to outputLevel + 1
      invariant r.Ok? && inputFiles <= r.files && Needed(levels, inputFiles, r.files, outputLevel)
      invariant Progress(levels, r.files, l, outputLevel, range)
    {
      r, range := ProcessLevel(levels, l, outputLevel, inputFiles, r.files, range);
      if r.Aborted? {
        return;
      }
    }
    NotDoomed(levels, inputFiles, r.files, outputLevel);
    CompleteLeavesNothing(levels, r.files, outputLevel);
  }
}
