/** Choosing subcompaction boundaries: candidate keys from the ends of input files, and consecutive ranges between them
    grouped until each group reaches the mean size. */
module SubcompactionBounds {
  import opened DbFormat
  import opened CompactionLevels

  ghost predicate Increasing(keys: seq<UserKey>) {
    forall i, j :: 0 <= i < j < |keys| ==> keys[i] < keys[j]
  }

  // ------------------------------------------------------------------
  // Candidates
  // ------------------------------------------------------------------

  lemma TailAbove(keys: seq<UserKey>)
    requires Increasing(keys) && keys != []
    ensures forall x :: x in keys[1..] ==> keys[0] < x
  {
    forall x | x in keys[1..] ensures keys[0] < x {
      var j :| 0 <= j < |keys| - 1 && keys[1..][j] == x;
      assert keys[j + 1] == x;
    }
  }

  lemma ConsIncreasing(k: UserKey, rest: seq<UserKey>)
    requires Increasing(rest) && forall j :: 0 <= j < |rest| ==> k < rest[j]
    ensures Increasing([k] + rest)
  {
  }

  /** The ordered set of candidate keys, as an increasing sequence. */
  function Insert(keys: seq<UserKey>, k: UserKey): (r: seq<UserKey>)
    requires Increasing(keys)
    ensures Increasing(r) && r != []
    ensures forall x :: x in r <==> x in keys || x == k
  {
    if keys == [] || k < keys[0] then [k] + keys
    else if k == keys[0] then keys
    else
      var rest := Insert(keys[1..], k);
      TailAbove(keys);
      assert forall j :: 0 <= j < |rest| ==> rest[j] in rest;
      ConsIncreasing(keys[0], rest);
      [keys[0]] + rest
  }

  ghost predicate EndpointOf(files: seq<FileMeta>, k: UserKey) {
    exists i :: 0 <= i < |files| && (k == files[i].smallest || k == files[i].largest)
  }

  ghost predicate EndpointOfInputs(inputs: seq<InputFiles>, k: UserKey) {
    exists l :: 0 <= l < |inputs| && EndpointOf(inputs[l].files, k)
  }

  /** A level offers every file end at level 0, its two ends elsewhere, and at the output level every file start too. */
  ghost predicate Offers(files: seq<FileMeta>, level: nat, outLevel: nat, k: UserKey) {
    if level == 0 then EndpointOf(files, k)
    else
      || (files != [] && (k == files[0].smallest || k == files[|files| - 1].largest))
      || (level == outLevel && exists i :: 0 <= i < |files| && k == files[i].smallest)
  }

  /** Candidate boundaries of one input level. */
  method AddLevelBounds(bounds: seq<UserKey>, files: seq<FileMeta>, level: nat, outLevel: nat) returns (r: seq<UserKey>)
    requires Increasing(bounds) && files != []
    ensures Increasing(r) && r != []
    ensures forall x :: x in r <==> x in bounds || Offers(files, level, outLevel, x)
    ensures forall x :: Offers(files, level, outLevel, x) ==> EndpointOf(files, x)
    ensures files[0].smallest in r && files[|files| - 1].largest in r
    ensures level == 0 ==> forall i :: 0 <= i < |files| ==> files[i].smallest in r && files[i].largest in r
    ensures level == outLevel ==> forall i :: 0 <= i < |files| ==> files[i].smallest in r
    ensures level > 0 && level != outLevel ==>
              forall x :: x in r ==> x in bounds || x == files[0].smallest || x == files[|files| - 1].largest
  {
    r := bounds;
    if level == 0 {
      for i := 0 to |files|
        invariant Increasing(r) && (i > 0 ==> r != [])
        invariant forall x :: x in r <==> x in bounds || EndpointOf(files[..i], x)
      {
        EndpointsGrow(files, i);
        r := Insert(Insert(r, files[i].smallest), files[i].largest);
      }
      assert files[..|files|] == files;
    } else {
      r := Insert(Insert(r, files[0].smallest), files[|files| - 1].largest);
      if level == outLevel {
        for i := 1 to |files|
          invariant Increasing(r) && r != []
          invariant forall x :: x in r <==> x in bounds || x == files[0].smallest || x == files[|files| - 1].largest ||
                                             exists j :: 0 <= j < i && x == files[j].smallest
        {
          r := Insert(r, files[i].smallest);
        }
      }
    }
  }

  lemma EndpointsGrow(files: seq<FileMeta>, i: nat)
    requires i < |files|
    ensures forall x :: EndpointOf(files[..i + 1], x) <==> EndpointOf(files[..i], x) || x == files[i].smallest || x == files[i].largest
  {
    var more := files[..i + 1];
    assert more[i] == files[i];
    forall x | EndpointOf(files[..i], x) ensures EndpointOf(more, x) {
      var j :| 0 <= j < i && (x == files[..i][j].smallest || x == files[..i][j].largest);
      assert more[j] == files[..i][j];
    }
    forall x | EndpointOf(more, x) && x != files[i].smallest && x != files[i].largest ensures EndpointOf(files[..i], x) {
      var j :| 0 <= j < i + 1 && (x == more[j].smallest || x == more[j].largest);
      assert files[..i][j] == more[j];
    }
  }

  // ------------------------------------------------------------------
  // Groups of ranges
  // ------------------------------------------------------------------

  /** The sizes of ranges lo..hi, added up. */
  ghost function Between(ranges: seq<nat>, lo: nat, hi: nat): nat
    requires lo <= hi <= |ranges|
    decreases hi
  {
    if lo == hi then 0 else Between(ranges, lo, hi - 1) + ranges[hi - 1]
  }

  lemma {:induction false} BetweenSplits(ranges: seq<nat>, lo: nat, mid: nat, hi: nat)
    requires lo <= mid <= hi <= |ranges|
    ensures Between(ranges, lo, hi) == Between(ranges, lo, mid) + Between(ranges, mid, hi)
    decreases hi
  {
    if mid < hi {
      BetweenSplits(ranges, lo, mid, hi - 1);
    }
  }

  lemma {:induction false} BetweenPrefix(ranges: seq<nat>, more: seq<nat>, hi: nat)
    requires hi <= |ranges|
    ensures Between(ranges + more, 0, hi) == Between(ranges, 0, hi)
  {
    if hi > 0 {
      BetweenPrefix(ranges, more, hi - 1);
    }
  }

  lemma BetweenAppend(ranges: seq<nat>, x: nat)
    ensures Between(ranges + [x], 0, |ranges| + 1) == Between(ranges, 0, |ranges|) + x
  {
    BetweenPrefix(ranges, [x], |ranges|);
  }

  /** x is at least the mean of the parts. */
  ghost predicate AtMean(x: nat, parts: nat, total: nat) {
    x * parts >= total
  }

  lemma MeanTest(x: nat, parts: nat, total: nat)
    requires parts > 0
    ensures x as real >= total as real / parts as real <==> AtMean(x, parts, total)
  {
    var mean := total as real / parts as real;
    assert mean * parts as real == total as real;
    assert (x * parts) as real == x as real * parts as real;
  }

  /** Group j consists of the ranges from ends[j] to ends[j + 1]. It was closed as soon as it reached the mean. */
  ghost predicate ClosedAtMean(ranges: seq<nat>, ends: seq<nat>, sizes: seq<nat>, j: int, parts: nat, total: nat) {
    && 0 <= j < |sizes| && j + 1 < |ends| && ends[j] < ends[j + 1] < |ranges|
    && sizes[j] == Between(ranges, ends[j], ends[j + 1]) && AtMean(sizes[j], parts, total)
    && (ends[j] < ends[j + 1] - 1 ==> !AtMean(Between(ranges, ends[j], ends[j + 1] - 1), parts, total))
  }

  ghost predicate Closed(ranges: seq<nat>, ends: seq<nat>, sizes: seq<nat>, parts: nat, total: nat) {
    && |ends| == |sizes| + 1 && ends[0] == 0
    && (forall j :: 0 <= j < |sizes| ==> ClosedAtMean(ranges, ends, sizes, j, parts, total))
  }

  ghost function LastEnd(ends: seq<nat>): nat
    requires ends != []
  {
    ends[|ends| - 1]
  }

  lemma CloseOne(ranges: seq<nat>, ends: seq<nat>, sizes: seq<nat>, parts: nat, total: nat, end: nat, size: nat)
    requires Closed(ranges, ends, sizes, parts, total) && LastEnd(ends) < end < |ranges|
    requires size == Between(ranges, LastEnd(ends), end) && AtMean(size, parts, total)
    requires LastEnd(ends) < end - 1 ==> !AtMean(Between(ranges, LastEnd(ends), end - 1), parts, total)
    ensures Closed(ranges, ends + [end], sizes + [size], parts, total)
  {
    var ends', sizes' := ends + [end], sizes + [size];
    forall j | 0 <= j < |sizes| ensures ClosedAtMean(ranges, ends', sizes', j, parts, total) {
      assert ClosedAtMean(ranges, ends, sizes, j, parts, total);
    }
    assert ClosedAtMean(ranges, ends', sizes', |sizes|, parts, total);
  }

  /** The boundaries are the candidates at which groups end. */
  ghost predicate EndAt(bounds: seq<UserKey>, ends: seq<nat>, boundaries: seq<UserKey>) {
    forall j :: 0 <= j < |boundaries| ==> IsEnd(bounds, ends, j, boundaries[j])
  }

  ghost predicate IsEnd(bounds: seq<UserKey>, ends: seq<nat>, j: int, k: UserKey) {
    0 <= j && j + 1 < |ends| && ends[j + 1] < |bounds| && k == bounds[ends[j + 1]]
  }

  /** Ranges up to i are grouped or, those since the last end, added up in rest. */
  ghost predicate Grouping(bounds: seq<UserKey>, ranges: seq<nat>, parts: nat, total: nat, boundaries: seq<UserKey>,
                           sizes: seq<nat>, ends: seq<nat>, rest: nat, i: nat) {
    && Closed(ranges, ends, sizes, parts, total) && LastEnd(ends) <= i < |ranges|
    && |boundaries| == |sizes| && EndAt(bounds, ends, boundaries)
    && Between(sizes, 0, |sizes|) == Between(ranges, 0, LastEnd(ends))
    && rest == Between(ranges, LastEnd(ends), i) && (LastEnd(ends) < i ==> !AtMean(rest, parts, total))
  }

  lemma CloseHere(bounds: seq<UserKey>, ranges: seq<nat>, parts: nat, total: nat, boundaries: seq<UserKey>,
                  sizes: seq<nat>, ends: seq<nat>, rest: nat, i: nat)
    requires |bounds| == |ranges| + 1 && Grouping(bounds, ranges, parts, total, boundaries, sizes, ends, rest, i)
    requires i + 1 < |ranges| && AtMean(rest + ranges[i], parts, total)
    ensures Grouping(bounds, ranges, parts, total, boundaries + [bounds[i + 1]], sizes + [rest + ranges[i]], ends + [i + 1], 0, i + 1)
  {
    CloseOne(ranges, ends, sizes, parts, total, i + 1, rest + ranges[i]);
    BetweenAppend(sizes, rest + ranges[i]);
    BetweenSplits(ranges, 0, LastEnd(ends), i + 1);
    assert LastEnd(ends + [i + 1]) == i + 1;
    EndsMore(bounds, ends, boundaries, i + 1);
  }

  lemma EndsMore(bounds: seq<UserKey>, ends: seq<nat>, boundaries: seq<UserKey>, end: nat)
    requires |ends| == |boundaries| + 1 && EndAt(bounds, ends, boundaries) && end < |bounds|
    ensures EndAt(bounds, ends + [end], boundaries + [bounds[end]])
  {
    var ends', boundaries' := ends + [end], boundaries + [bounds[end]];
    forall j | 0 <= j < |boundaries'| ensures IsEnd(bounds, ends', j, boundaries'[j]) {
      assert j < |boundaries| ==> IsEnd(bounds, ends, j, boundaries[j]);
    }
  }

  /** Closes a group whenever it reaches the mean, at the candidate where that range ends, and leaves the last part open. */
  method CloseGroups(bounds: seq<UserKey>, ranges: seq<nat>, parts: nat, total: nat)
    returns (boundaries: seq<UserKey>, sizes: seq<nat>, rest: nat, ghost ends: seq<nat>)
    requires 1 < parts && ranges != [] && |bounds| == |ranges| + 1
    ensures Closed(ranges, ends, sizes, parts, total) && |sizes| < parts && LastEnd(ends) < |ranges|
    ensures |boundaries| == |sizes| && EndAt(bounds, ends, boundaries)
    ensures Between(sizes, 0, |sizes|) == Between(ranges, 0, LastEnd(ends))
    ensures rest == if |sizes| == parts - 1 then 0 else Between(ranges, LastEnd(ends), |ranges| - 1)
    ensures |sizes| < parts - 1 && LastEnd(ends) < |ranges| - 1 ==> !AtMean(rest, parts, total)
  {
    var mean, left := total as real / parts as real, parts;
    boundaries, sizes, rest, ends := [], [], 0, [0];
    var i := 0;
    while i < |ranges| - 1
      invariant Grouping(bounds, ranges, parts, total, boundaries, sizes, ends, rest, i)
      invariant |sizes| + left == parts && left >= 1 && (left == 1 ==> LastEnd(ends) == i)
    {
      if left == 1 {
        break;
      }
      MeanTest(rest + ranges[i], parts, total);
      if (rest + ranges[i]) as real >= mean {
        CloseHere(bounds, ranges, parts, total, boundaries, sizes, ends, rest, i);
        boundaries, sizes, ends := boundaries + [bounds[i + 1]], sizes + [rest + ranges[i]], ends + [i + 1];
        left, rest := left - 1, 0;
      } else {
        rest := rest + ranges[i];
      }
      i := i + 1;
    }
  }

  /** The sizes of the ranges between consecutive candidates. */
  method Ranges(bounds: seq<UserKey>, size: (UserKey, UserKey) -> nat) returns (ranges: seq<nat>, sum: nat)
    requires bounds != []
    ensures |ranges| == |bounds| - 1 && forall i :: 0 <= i < |ranges| ==> ranges[i] == size(bounds[i], bounds[i + 1])
    ensures sum == Between(ranges, 0, |ranges|)
  {
    ranges, sum := [], 0;
    for i := 0 to |bounds| - 1
      invariant |ranges| == i && forall j :: 0 <= j < i ==> ranges[j] == size(bounds[j], bounds[j + 1])
      invariant sum == Between(ranges, 0, i)
    {
      BetweenAppend(ranges, size(bounds[i], bounds[i + 1]));
      ranges, sum := ranges + [size(bounds[i], bounds[i + 1])], sum + size(bounds[i], bounds[i + 1]);
    }
  }

  function Min(a: nat, b: nat): nat {
    if a < b then a else b
  }

  /** The number of parts aimed at: limited by the ranges, by the setting, and by the estimate of output files. */
  function Parts(ranges: nat, maxSubcompactions: nat, maxFiles: nat): (parts: nat)
    ensures parts <= ranges && parts <= maxSubcompactions && parts <= maxFiles
    ensures parts == ranges || parts == maxSubcompactions || parts == maxFiles
  {
    Min(ranges, Min(maxSubcompactions, maxFiles))
  }

  /** What the sizes leave out: once the number of parts is reached, the last group is reported with its last range only. */
  ghost function LeftOut(ranges: seq<nat>, ends: seq<nat>, parts: nat): nat
    requires ends != [] && LastEnd(ends) <= |ranges|
  {
    if 1 < parts == |ends| && LastEnd(ends) < |ranges| then Between(ranges, LastEnd(ends), |ranges| - 1) else 0
  }

  /** The boundaries are the candidates at which groups were closed, and the last group is what is left of the ranges, or
      just the last of them. */
  ghost predicate Grouped(bounds: seq<UserKey>, ranges: seq<nat>, ends: seq<nat>, boundaries: seq<UserKey>, sizes: seq<nat>,
                          parts: nat, total: nat) {
    && |ends| == |sizes| == |boundaries| + 1 && LastEnd(ends) <= |ranges| == |bounds| - 1
    && Closed(ranges, ends, sizes[..|sizes| - 1], parts, total)
    && EndAt(bounds, ends, boundaries) && (|ends| == 1 || |ends| <= parts)
    && (|ends| < parts && LastEnd(ends) < |ranges| - 1 ==> !AtMean(Between(ranges, LastEnd(ends), |ranges| - 1), parts, total))
    && Between(sizes, 0, |sizes|) + LeftOut(ranges, ends, parts) == total
  }

  /** Groups consecutive candidate ranges until each group reaches the mean size. `size` gives the
      approximate size between two keys and maxOutputFiles is the estimate from the total. */
  method GroupRanges(bounds: seq<UserKey>, size: (UserKey, UserKey) -> nat, maxSubcompactions: nat, maxOutputFiles: nat -> nat)
    returns (boundaries: seq<UserKey>, sizes: seq<nat>, ghost ranges: seq<nat>, ghost ends: seq<nat>)
    requires Increasing(bounds) && bounds != []
    ensures Increasing(boundaries) && forall b :: b in boundaries ==> b in bounds
    ensures |sizes| == |boundaries| + 1
    ensures |sizes| == 1 || |sizes| <= maxSubcompactions
    ensures |sizes| == 1 || (bounds[0] < boundaries[0] && boundaries[|boundaries| - 1] < bounds[|bounds| - 1])
    ensures |ranges| == |bounds| - 1 && forall i :: 0 <= i < |ranges| ==> ranges[i] == size(bounds[i], bounds[i + 1])
    ensures var total := Between(ranges, 0, |ranges|);
            var parts := Parts(|ranges|, maxSubcompactions, maxOutputFiles(total));
            Grouped(bounds, ranges, ends, boundaries, sizes, parts, total)
  {
    var rs, total := Ranges(bounds, size);
    ranges := rs;
    var parts := Parts(|rs|, maxSubcompactions, maxOutputFiles(total));
    boundaries, sizes, ends := [], [total], [0];
    if parts > 1 {
      var closed, rest;
      boundaries, closed, rest, ends := CloseGroups(bounds, rs, parts, total);
      BetweenAppend(closed, rest + rs[|rs| - 1]);
      BetweenSplits(rs, 0, LastEnd(ends), |rs|);
      sizes := closed + [rest + rs[|rs| - 1]];
      assert sizes[..|sizes| - 1] == closed;
      BoundariesIncrease(bounds, rs, ends, closed, boundaries, parts, total);
    } else {
      BetweenAppend([], total);
      assert [] + [total] == sizes;
    }
  }

  lemma {:induction false} EndsIncrease(ranges: seq<nat>, ends: seq<nat>, sizes: seq<nat>, parts: nat, total: nat, i: nat, j: nat)
    requires Closed(ranges, ends, sizes, parts, total) && i < j < |ends|
    ensures ends[i] < ends[j]
    decreases j
  {
    assert ClosedAtMean(ranges, ends, sizes, j - 1, parts, total);
    if i < j - 1 {
      EndsIncrease(ranges, ends, sizes, parts, total, i, j - 1);
    }
  }

  /** Boundaries lie strictly inside the candidates, in order. */
  lemma BoundariesIncrease(bounds: seq<UserKey>, ranges: seq<nat>, ends: seq<nat>, sizes: seq<nat>, boundaries: seq<UserKey>,
                           parts: nat, total: nat)
    requires Increasing(bounds) && |bounds| == |ranges| + 1 && Closed(ranges, ends, sizes, parts, total) && |boundaries| == |sizes|
    requires EndAt(bounds, ends, boundaries)
    ensures Increasing(boundaries) && forall b :: b in boundaries ==> b in bounds
    ensures forall j :: 0 <= j < |boundaries| ==> bounds[0] < boundaries[j] < bounds[|bounds| - 1]
  {
    forall j | 0 <= j < |boundaries| ensures bounds[0] < boundaries[j] < bounds[|bounds| - 1] {
      assert IsEnd(bounds, ends, j, boundaries[j]);
      assert ClosedAtMean(ranges, ends, sizes, j, parts, total);
    }
    forall i, j | 0 <= i < j < |boundaries| ensures boundaries[i] < boundaries[j] {
      assert IsEnd(bounds, ends, i, boundaries[i]) && IsEnd(bounds, ends, j, boundaries[j]);
      EndsIncrease(ranges, ends, sizes, parts, total, i + 1, j + 1);
    }
  }

  /** Three ranges of sizes 10, 1 and 1 in two parts: the one in the middle is in neither size. */
  method LastSizeFallsShort() returns (sizes: seq<nat>)
    ensures Between(sizes, 0, |sizes|) == 11
  {
    var bounds := [0.0, OneByte(1), OneByte(2), OneByte(3)];
    var size: (UserKey, UserKey) -> nat := (a, b) => if a == 0.0 then 10 else 1;
    var boundaries;
    ghost var ranges, ends;
    boundaries, sizes, ranges, ends := GroupRanges(bounds, size, 2, total => total);
    assert OneByte(1) > 0.0 && OneByte(2) > 0.0;
    assert size(bounds[0], bounds[1]) == 10 && size(bounds[1], bounds[2]) == 1 && size(bounds[2], bounds[3]) == 1;
    assert ranges == [10, 1, 1];
    ShortSums(ends, sizes);
  }

  lemma ShortSums(ends: seq<nat>, sizes: seq<nat>)
    requires |ends| == |sizes| && ends != [] && Closed([10, 1, 1], ends, sizes[..|sizes| - 1], 2, 12) && |ends| <= 2
    requires |ends| < 2 && LastEnd(ends) < 2 ==> !AtMean(Between([10, 1, 1], LastEnd(ends), 2), 2, 12)
    ensures |ends| == 2 && ends[1] == 1 && Between([10, 1, 1], 1, 2) == 1 && Between([10, 1, 1], 0, 3) == 12
  {
    var ranges := [10, 1, 1];
    assert Between(ranges, 0, 1) == 10 && Between(ranges, 0, 2) == 11 && Between(ranges, 0, 3) == 12;
    assert Between(ranges, 1, 2) == 1;
    if |ends| == 2 {
      assert ClosedAtMean(ranges, ends, sizes[..|sizes| - 1], 0, 2, 12);
    }
  }

  /** Some level that is looked at, no level of the job before it being empty, offers k. */
  ghost predicate Offered(inputs: seq<InputFiles>, upTo: nat, startLevel: nat, outLevel: nat, k: UserKey)
    requires upTo <= |inputs|
  {
    exists l :: 0 <= l < upTo && startLevel <= inputs[l].level <= outLevel && Offers(inputs[l].files, inputs[l].level, outLevel, k)
  }

  /** The whole choice: collect candidates level by level, up to an empty one, then group. */
  method GenSubcompactionBoundaries(inputs: seq<InputFiles>, startLevel: nat, outLevel: nat,
                                    size: (UserKey, UserKey) -> nat, maxSubcompactions: nat, maxOutputFiles: nat -> nat)
    returns (boundaries: seq<UserKey>, sizes: seq<nat>,
             ghost upTo: nat, ghost bounds: seq<UserKey>, ghost ranges: seq<nat>, ghost ends: seq<nat>)
    requires inputs != [] && inputs[0].files != [] && inputs[0].level == startLevel <= outLevel
    ensures Increasing(boundaries)
    ensures |sizes| == |boundaries| + 1
    ensures |sizes| == 1 || |sizes| <= maxSubcompactions
    ensures forall b :: b in boundaries ==> b in bounds && EndpointOfInputs(inputs, b)
    ensures upTo <= |inputs| && forall k :: k in bounds <==> Offered(inputs, upTo, startLevel, outLevel, k)
    ensures upTo == |inputs| || (inputs[upTo].files == [] && startLevel <= inputs[upTo].level <= outLevel)
    ensures forall l :: 0 <= l < upTo && startLevel <= inputs[l].level <= outLevel ==> inputs[l].files != []
    ensures bounds != [] && |ranges| == |bounds| - 1 && forall i :: 0 <= i < |ranges| ==> ranges[i] == size(bounds[i], bounds[i + 1])
    ensures var total := Between(ranges, 0, |ranges|);
            var parts := Parts(|ranges|, maxSubcompactions, maxOutputFiles(total));
            Grouped(bounds, ranges, ends, boundaries, sizes, parts, total)
  {
    var candidates;
    candidates, upTo := Candidates(inputs, startLevel, outLevel);
    bounds := candidates;
    boundaries, sizes, ranges, ends := GroupRanges(candidates, size, maxSubcompactions, maxOutputFiles);
  }

  method Candidates(inputs: seq<InputFiles>, startLevel: nat, outLevel: nat) returns (bounds: seq<UserKey>, ghost upTo: nat)
    requires inputs != [] && inputs[0].files != [] && inputs[0].level == startLevel <= outLevel
    ensures Increasing(bounds) && bounds != [] && forall b :: b in bounds ==> EndpointOfInputs(inputs, b)
    ensures upTo <= |inputs| && forall k :: k in bounds <==> Offered(inputs, upTo, startLevel, outLevel, k)
    ensures upTo == |inputs| || (inputs[upTo].files == [] && startLevel <= inputs[upTo].level <= outLevel)
    ensures forall l :: 0 <= l < upTo && startLevel <= inputs[l].level <= outLevel ==> inputs[l].files != []
  {
    bounds := [];
    var l := 0;
    while l < |inputs|
      invariant 0 <= l <= |inputs|
      invariant Increasing(bounds) && (l > 0 ==> bounds != [])
      invariant forall b :: b in bounds ==> EndpointOfInputs(inputs, b)
      invariant forall k :: k in bounds <==> Offered(inputs, l, startLevel, outLevel, k)
      invariant forall m :: 0 <= m < l && startLevel <= inputs[m].level <= outLevel ==> inputs[m].files != []
    {
      var level := inputs[l].level;
      if startLevel <= level <= outLevel {
        if inputs[l].files == [] {
          break;
        }
        bounds := AddLevelBounds(bounds, inputs[l].files, level, outLevel);
      }
      l := l + 1;
    }
    upTo := l;
  }
}
