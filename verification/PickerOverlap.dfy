/** The trivial-move test of universal compaction: a min-heap merge of the input files by smallest key that looks for
    two files with a key in common. */
module PickerOverlap {
  import opened DbFormat

  datatype InputFile = InputFile(smallest: UserKey, largest: UserKey)

  /** A file by input level and index, which is what a heap entry holds. */
  type Place = (nat, nat)

  type Inputs = seq<seq<InputFile>>

  predicate Is(inputs: Inputs, p: Place) {
    p.0 < |inputs| && p.1 < |inputs[p.0]|
  }

  function FileAt(inputs: Inputs, p: Place): InputFile
    requires Is(inputs, p)
  {
    inputs[p.0][p.1]
  }

  /** Well-formed ranges; input levels other than the first are sorted by key, with at most boundary keys shared. */
  ghost predicate InputsOk(inputs: Inputs) {
    && (forall p :: Is(inputs, p) ==> FileAt(inputs, p).smallest <= FileAt(inputs, p).largest)
    && (forall l, i, j :: 1 <= l < |inputs| && 0 <= i < j < |inputs[l]| ==> inputs[l][i].largest <= inputs[l][j].smallest)
  }

  ghost predicate Apart(a: InputFile, b: InputFile) {
    a.largest < b.smallest || b.largest < a.smallest
  }

  ghost predicate Holds(f: InputFile, k: UserKey) {
    f.smallest <= k <= f.largest
  }

  /** Files are apart exactly when no key lies in both ranges, boundary keys included. */
  lemma ApartIff(a: InputFile, b: InputFile)
    requires a.smallest <= a.largest && b.smallest <= b.largest
    ensures Apart(a, b) <==> forall k :: !(Holds(a, k) && Holds(b, k))
  {
    assert !Apart(a, b) ==> Holds(a, if a.smallest < b.smallest then b.smallest else a.smallest);
  }

  /** The files the merge reaches: when the first input level is not level 0, only its first file enters the heap. */
  predicate Reached(inputs: Inputs, startLevel: nat, p: Place) {
    Is(inputs, p) && (p.0 == 0 && startLevel != 0 ==> p.1 == 0)
  }

  ghost predicate ReachedApart(inputs: Inputs, startLevel: nat) {
    forall p, q :: Reached(inputs, startLevel, p) && Reached(inputs, startLevel, q) && p != q ==> Apart(FileAt(inputs, p), FileAt(inputs, q))
  }

  ghost predicate AllApart(inputs: Inputs) {
    forall p, q :: Is(inputs, p) && Is(inputs, q) && p != q ==> Apart(FileAt(inputs, p), FileAt(inputs, q))
  }

  // ------------------------------------------------------------------
  // The heap
  // ------------------------------------------------------------------

  ghost predicate Least(inputs: Inputs, heap: set<Place>, p: Place) {
    p in heap && Is(inputs, p) && forall q :: q in heap && Is(inputs, q) ==> FileAt(inputs, p).smallest <= FileAt(inputs, q).smallest
  }

  lemma {:induction false} HasLeast(inputs: Inputs, heap: set<Place>)
    requires heap != {} && forall q :: q in heap ==> Is(inputs, q)
    ensures exists p :: Least(inputs, heap, p)
    decreases |heap|
  {
    var p :| p in heap;
    var rest := heap - {p};
    if rest == {} {
      assert heap == {p};
      assert Least(inputs, heap, p);
    } else {
      HasLeast(inputs, rest);
      var q :| Least(inputs, rest, q);
      var best := if FileAt(inputs, p).smallest <= FileAt(inputs, q).smallest then p else q;
      forall x | x in heap ensures FileAt(inputs, best).smallest <= FileAt(inputs, x).smallest {
        assert x == p || x in rest;
      }
      assert Least(inputs, heap, best);
    }
  }

  /** Takes an entry with the least smallest key off the heap. */
  method Pop(inputs: Inputs, heap: set<Place>) returns (top: Place, rest: set<Place>)
    requires heap != {} && forall q :: q in heap ==> Is(inputs, q)
    ensures Least(inputs, heap, top) && rest == heap - {top}
  {
    HasLeast(inputs, heap);
    top :| top in heap && forall q :: q in heap ==> FileAt(inputs, top).smallest <= FileAt(inputs, q).smallest;
    rest := heap - {top};
  }

  /** Fed by: the whole of level 0, the first file of every other input level. */
  method CreateLevelHeap(inputs: Inputs, startLevel: nat) returns (heap: set<Place>)
    ensures forall p :: p in heap <==> Is(inputs, p) && (p.1 == 0 || (p.0 == 0 && startLevel == 0))
  {
    heap := {};
    for l := 0 to |inputs|
      invariant forall p :: p in heap <==> p.0 < l && Is(inputs, p) && (p.1 == 0 || (p.0 == 0 && startLevel == 0))
    {
      if |inputs[l]| != 0 {
        if l == 0 && startLevel == 0 {
          for i := 0 to |inputs[0]|
            invariant forall p :: p in heap <==> p.0 == 0 && p.1 < i
          {
            heap := heap + {(0, i)};
          }
        } else {
          heap := heap + {(l, 0)};
        }
      }
    }
  }

  ghost function Places(inputs: Inputs): (all: set<Place>)
    ensures forall p :: p in all <==> Is(inputs, p)
  {
    set l: nat, i: nat | l < |inputs| && i < |inputs[l]| :: (l, i)
  }

  /** A file not yet reached waits behind an entry of its own level. */
  ghost predicate Waiting(inputs: Inputs, startLevel: nat, heap: set<Place>, seen: set<Place>) {
    forall p :: Reached(inputs, startLevel, p) && p !in seen && p !in heap ==>
      p.0 != 0 && exists j: nat :: j < p.1 && (p.0, j) in heap
  }

  /** Below level 0 the heap holds one file per level, ahead of those seen. */
  ghost predicate Ahead(heap: set<Place>, seen: set<Place>) {
    && (forall p, q :: p in heap && q in heap && p.0 == q.0 && p.0 != 0 ==> p == q)
    && (forall p, q :: p in heap && q in seen && p.0 == q.0 && p.0 != 0 ==> q.1 < p.1)
  }

  /** What comes after the top: the rest of the heap and, below level 0, the next file of the top's level. */
  ghost predicate Advances(inputs: Inputs, heap: set<Place>, curr: Place, next: set<Place>)
    requires Is(inputs, curr)
  {
    next == heap - {curr} + if curr.0 != 0 && curr.1 < |inputs[curr.0]| - 1 then {(curr.0, curr.1 + 1)} else {}
  }

  /** The seen files are apart, and `prev`, the last of them, ends after the others and starts before the heap. */
  ghost predicate Swept(inputs: Inputs, startLevel: nat, heap: set<Place>, seen: set<Place>, prev: Place) {
    && (forall p :: p in seen || p in heap ==> Reached(inputs, startLevel, p))
    && heap !! seen
    && (forall p, q :: p in seen && q in seen && p != q && Is(inputs, p) && Is(inputs, q) ==> Apart(FileAt(inputs, p), FileAt(inputs, q)))
    && (seen != {} ==> prev in seen)
    && (seen != {} ==> forall p :: p in seen && Is(inputs, p) && Is(inputs, prev) ==> FileAt(inputs, p).largest <= FileAt(inputs, prev).largest)
    && (seen != {} ==> forall p :: p in heap && Is(inputs, p) && Is(inputs, prev) ==> FileAt(inputs, prev).smallest <= FileAt(inputs, p).smallest)
  }

  lemma AheadOn(inputs: Inputs, heap: set<Place>, seen: set<Place>, curr: Place, next: set<Place>)
    requires Ahead(heap, seen) && curr in heap && Is(inputs, curr) && Advances(inputs, heap, curr, next)
    ensures Ahead(next, seen + {curr})
  {
  }

  lemma WaitOn(inputs: Inputs, startLevel: nat, heap: set<Place>, seen: set<Place>, curr: Place, next: set<Place>)
    requires Waiting(inputs, startLevel, heap, seen) && curr in heap && Is(inputs, curr) && Advances(inputs, heap, curr, next)
    ensures Waiting(inputs, startLevel, next, seen + {curr})
  {
    forall p | Reached(inputs, startLevel, p) && p !in seen + {curr} && p !in next
      ensures p.0 != 0 && exists j: nat :: j < p.1 && (p.0, j) in next
    {
      var j: nat :| j < p.1 && (p.0, j) in heap;
      if (p.0, j) == curr {
        assert (p.0, j + 1) in next;
      } else {
        assert (p.0, j) in next;
      }
    }
  }

  lemma SweepOn(inputs: Inputs, startLevel: nat, heap: set<Place>, seen: set<Place>, prev: Place, curr: Place, next: set<Place>)
    requires InputsOk(inputs) && Swept(inputs, startLevel, heap, seen, prev) && Ahead(heap, seen)
    requires Least(inputs, heap, curr) && Advances(inputs, heap, curr, next)
    requires seen != {} ==> Is(inputs, prev) && FileAt(inputs, prev).largest < FileAt(inputs, curr).smallest
    ensures Swept(inputs, startLevel, next, seen + {curr}, curr)
  {
    forall p | p in next ensures Reached(inputs, startLevel, p) && FileAt(inputs, curr).smallest <= FileAt(inputs, p).smallest {
      if p !in heap {
        assert inputs[curr.0][curr.1].largest <= inputs[curr.0][curr.1 + 1].smallest;
      }
    }
    assert FileAt(inputs, curr).smallest <= FileAt(inputs, curr).largest;
  }

  /** The state of the merge between two rounds. */
  ghost predicate Merging(inputs: Inputs, startLevel: nat, heap: set<Place>, seen: set<Place>, prev: Place) {
    Swept(inputs, startLevel, heap, seen, prev) && Waiting(inputs, startLevel, heap, seen) && Ahead(heap, seen)
  }

  lemma MergeStarts(inputs: Inputs, startLevel: nat, heap: set<Place>, prev: Place)
    requires forall p :: p in heap <==> Is(inputs, p) && (p.1 == 0 || (p.0 == 0 && startLevel == 0))
    ensures Merging(inputs, startLevel, heap, {}, prev)
  {
    forall p | Reached(inputs, startLevel, p) && p !in heap ensures p.0 != 0 && exists j: nat :: j < p.1 && (p.0, j) in heap {
      assert (p.0, 0) in heap;
    }
  }

  lemma MergeGoesOn(inputs: Inputs, startLevel: nat, heap: set<Place>, seen: set<Place>, prev: Place, curr: Place, next: set<Place>)
    requires InputsOk(inputs) && Merging(inputs, startLevel, heap, seen, prev)
    requires Least(inputs, heap, curr) && Advances(inputs, heap, curr, next)
    requires seen != {} ==> Is(inputs, prev) && FileAt(inputs, prev).largest < FileAt(inputs, curr).smallest
    ensures Merging(inputs, startLevel, next, seen + {curr}, curr)
    ensures curr in Places(inputs) - seen
  {
    SweepOn(inputs, startLevel, heap, seen, prev, curr, next);
    WaitOn(inputs, startLevel, heap, seen, curr, next);
    AheadOn(inputs, heap, seen, curr, next);
  }

  lemma MergeEnds(inputs: Inputs, startLevel: nat, seen: set<Place>, prev: Place)
    requires Merging(inputs, startLevel, {}, seen, prev)
    ensures ReachedApart(inputs, startLevel) && forall p :: Reached(inputs, startLevel, p) <==> p in seen
  {
    assert forall p :: Reached(inputs, startLevel, p) ==> p in seen;
  }

  lemma MergeFinds(inputs: Inputs, startLevel: nat, heap: set<Place>, seen: set<Place>, prev: Place, curr: Place)
    requires InputsOk(inputs) && Merging(inputs, startLevel, heap, seen, prev) && seen != {} && Least(inputs, heap, curr)
    ensures Is(inputs, prev) && FileAt(inputs, prev).smallest <= FileAt(inputs, curr).smallest
    ensures FileAt(inputs, prev).largest >= FileAt(inputs, curr).smallest ==> !ReachedApart(inputs, startLevel)
  {
    assert Reached(inputs, startLevel, prev) && Reached(inputs, startLevel, curr) && prev != curr;
  }

  lemma InHeap(inputs: Inputs, startLevel: nat, heap: set<Place>, seen: set<Place>, prev: Place)
    requires Merging(inputs, startLevel, heap, seen, prev)
    ensures forall q :: q in heap ==> Is(inputs, q)
    ensures seen != {} ==> Is(inputs, prev)
  {
    assert forall p :: p in seen || p in heap ==> Reached(inputs, startLevel, p);
  }

  /** The heap without its top, and with the file that follows the top in its level. */
  method Advance(inputs: Inputs, ghost heap: set<Place>, curr: Place, rest: set<Place>) returns (next: set<Place>)
    requires Is(inputs, curr) && rest == heap - {curr}
    ensures Advances(inputs, heap, curr, next)
  {
    next := rest;
    if curr.0 != 0 && curr.1 < |inputs[curr.0]| - 1 {
      var after: Place := (curr.0, curr.1 + 1);
      next := rest + {after};
    }
  }

  /** Files in the order they leave the heap: none twice, by smallest key. */
  ghost predicate InOrder(inputs: Inputs, order: seq<Place>) {
    && (forall i :: 0 <= i < |order| ==> Is(inputs, order[i]))
    && (forall i, j :: 0 <= i < j < |order| ==>
          order[i] != order[j] && FileAt(inputs, order[i]).smallest <= FileAt(inputs, order[j]).smallest)
  }

  /** The order lists what was seen, `prev` last. */
  ghost predicate Lists(inputs: Inputs, order: seq<Place>, seen: set<Place>, prev: Place) {
    && InOrder(inputs, order) && (forall p :: p in seen <==> p in order)
    && (seen != {} ==> order != [] && prev == order[|order| - 1])
  }

  lemma OrderGrows(inputs: Inputs, order: seq<Place>, seen: set<Place>, prev: Place, curr: Place)
    requires Lists(inputs, order, seen, prev) && Is(inputs, curr) && curr !in seen
    requires seen != {} ==> Is(inputs, prev) && FileAt(inputs, prev).smallest <= FileAt(inputs, curr).smallest
    ensures Lists(inputs, order + [curr], seen + {curr}, curr)
  {
    assert seen == {} ==> order == [] by {
      if order != [] {
        assert order[0] in order;
      }
    }
    forall i | 0 <= i < |order| ensures order[i] != curr && FileAt(inputs, order[i]).smallest <= FileAt(inputs, curr).smallest {
      assert order[i] in order;
    }
  }

  /** The merge goes over the files by smallest key, each once, and answers whether those it reaches have no key in
      common. */
  method IsInputNonOverlapping(inputs: Inputs, startLevel: nat) returns (r: bool, ghost order: seq<Place>)
    requires InputsOk(inputs)
    ensures r <==> ReachedApart(inputs, startLevel)
    ensures InOrder(inputs, order) && (r ==> forall p :: Reached(inputs, startLevel, p) <==> p in order)
  {
    order := [];
    var heap: set<Place> := CreateLevelHeap(inputs, startLevel);
    var firstIter := true;
    var prev: Place := (0, 0);
    ghost var seen: set<Place> := {};
    MergeStarts(inputs, startLevel, heap, prev);
    while heap != {}
      invariant firstIter <==> seen == {}
      invariant Merging(inputs, startLevel, heap, seen, prev)
      invariant Lists(inputs, order, seen, prev)
      decreases Places(inputs) - seen
    {
      InHeap(inputs, startLevel, heap, seen, prev);
      var curr, rest := Pop(inputs, heap);
      if !firstIter {
        MergeFinds(inputs, startLevel, heap, seen, prev, curr);
        if FileAt(inputs, prev).largest >= FileAt(inputs, curr).smallest {
          return false, order;
        }
      }
      var next := Advance(inputs, heap, curr, rest);
      MergeGoesOn(inputs, startLevel, heap, seen, prev, curr, next);
      OrderGrows(inputs, order, seen, prev, curr);
      order := order + [curr];
      firstIter, prev, heap, seen := false, curr, next, seen + {curr};
    }
    MergeEnds(inputs, startLevel, seen, prev);
    return true, order;
  }

  // ------------------------------------------------------------------
  // When the answer is right
  // ------------------------------------------------------------------

  /** A file the merge never looks at has a key in common with another input file. */
  ghost predicate MissedOverlap(inputs: Inputs, startLevel: nat) {
    exists p, q :: Is(inputs, p) && !Reached(inputs, startLevel, p) && Is(inputs, q) && p != q && !Apart(FileAt(inputs, p), FileAt(inputs, q))
  }

  /** What the merge decides is what it is asked, whether all input files are apart, unless it looks at no two that
      overlap and one it never looks at does. */
  lemma RightUnlessMissed(inputs: Inputs, startLevel: nat)
    ensures AllApart(inputs) <==> ReachedApart(inputs, startLevel) && !MissedOverlap(inputs, startLevel)
    ensures startLevel == 0 || inputs == [] || |inputs[0]| <= 1 ==> !MissedOverlap(inputs, startLevel)
  {
    if ReachedApart(inputs, startLevel) && !MissedOverlap(inputs, startLevel) {
      forall p, q | Is(inputs, p) && Is(inputs, q) && p != q ensures Apart(FileAt(inputs, p), FileAt(inputs, q)) {
        if !Reached(inputs, startLevel, p) {
          assert Apart(FileAt(inputs, p), FileAt(inputs, q));
        } else if !Reached(inputs, startLevel, q) {
          assert Apart(FileAt(inputs, q), FileAt(inputs, p));
        }
      }
    }
  }

  /** Two files of level 1 and one of level 2, the last two equal in range: the merge says that nothing overlaps. */
  lemma MissesAnOverlap()
    ensures var inputs := [[InputFile(OneByte(1), OneByte(2)), InputFile(OneByte(5), OneByte(6))], [InputFile(OneByte(5), OneByte(6))]];
      InputsOk(inputs) && ReachedApart(inputs, 1) && !AllApart(inputs)
  {
    var inputs := [[InputFile(OneByte(1), OneByte(2)), InputFile(OneByte(5), OneByte(6))], [InputFile(OneByte(5), OneByte(6))]];
    assert Is(inputs, (0, 1)) && Is(inputs, (1, 0));
    assert !Apart(FileAt(inputs, (0, 1)), FileAt(inputs, (1, 0)));
  }

  /** The inputs of a compaction that starts at a level: all levels but level 0 are sorted, the first one holds n files. */
  ghost predicate InputsOf(inputs: Inputs, startLevel: nat, n: nat) {
    && InputsOk(inputs) && inputs != [] && |inputs[0]| == n
    && (startLevel != 0 ==> forall i, j :: 0 <= i < j < n ==> inputs[0][i].largest <= inputs[0][j].smallest)
  }

  /** Keys in increasing order: strings of ever more zero bytes. */
  function Zeros(i: nat): seq<byte> {
    if i == 0 then [] else [0] + Zeros(i - 1)
  }

  lemma {:induction false} ZerosIncrease(i: nat, j: nat)
    requires i < j
    ensures Rank(Zeros(i)) < Rank(Zeros(j))
  {
    ZerosCompare(i, j);
    RankEmbeds(Zeros(i), Zeros(j));
  }

  lemma {:induction false} ZerosCompare(i: nat, j: nat)
    requires i < j
    ensures BytewiseCompare(Zeros(i), Zeros(j)) < 0
  {
    if i > 0 {
      ZerosCompare(i - 1, j - 1);
      assert Zeros(i)[1..] == Zeros(i - 1) && Zeros(j)[1..] == Zeros(j - 1);
    }
  }

  function FileOf(i: nat): InputFile {
    InputFile(Rank(Zeros(i)), Rank(Zeros(i)))
  }

  /** n apart files at the first level, and the second of them once more at the next. */
  function Doubled(n: nat): Inputs {
    [seq(n, i requires 0 <= i < n => FileOf(i)), [FileOf(1)]]
  }

  lemma DoubledIsMissed(startLevel: nat, n: nat)
    requires startLevel != 0 && n >= 2
    ensures InputsOf(Doubled(n), startLevel, n) && ReachedApart(Doubled(n), startLevel) && !AllApart(Doubled(n))
  {
    var inputs: Inputs := Doubled(n);
    forall i, j | 0 <= i < j < n ensures inputs[0][i].largest < inputs[0][j].smallest {
      ZerosIncrease(i, j);
    }
    assert Is(inputs, (0, 1)) && Is(inputs, (1, 0));
    assert !Apart(FileAt(inputs, (0, 1)), FileAt(inputs, (1, 0)));
    forall p, q | Reached(inputs, startLevel, p) && Reached(inputs, startLevel, q) && p != q
      ensures Apart(FileAt(inputs, p), FileAt(inputs, q))
    {
      assert (p == (0, 0) && q == (1, 0)) || (p == (1, 0) && q == (0, 0));
    }
  }

  /** The answer is about all the files, whatever they are, exactly when the compaction starts at level 0 or has at most
      one file at its first level. */
  lemma AlwaysRightIff(startLevel: nat, n: nat)
    ensures (forall inputs :: InputsOf(inputs, startLevel, n) ==> (ReachedApart(inputs, startLevel) <==> AllApart(inputs))) <==>
            startLevel == 0 || n <= 1
  {
    if startLevel == 0 || n <= 1 {
      forall inputs | InputsOf(inputs, startLevel, n) ensures ReachedApart(inputs, startLevel) <==> AllApart(inputs) {
        RightUnlessMissed(inputs, startLevel);
      }
    } else {
      DoubledIsMissed(startLevel, n);
    }
  }
}
