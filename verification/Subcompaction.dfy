/** A compaction job: running the iterator over a key range, and the fact that splitting a job by user key does not change
    what it writes. */
module Subcompaction {
  import opened DbFormat
  import opened CompactionLevels
  import opened CompactionIterator
  import opened CompactionOutput
  import opened CompactionReads
  import opened SubcompactionBounds

  // ------------------------------------------------------------------
  // One range
  // ------------------------------------------------------------------

  /** The first index at or after `from` whose user key is at least k. */
  function IndexOf(input: seq<Entry>, k: UserKey, from: nat): (p: nat)
    requires from <= |input|
    ensures from <= p <= |input|
    ensures forall i :: from <= i < p ==> input[i].key < k
    ensures p < |input| ==> input[p].key >= k
    decreases |input| - from
  {
    if from == |input| || input[from].key >= k then from else IndexOf(input, k, from + 1)
  }

  function StartIndex(input: seq<Entry>, start: Option<UserKey>): (p: nat)
    ensures p <= |input|
  {
    if start == None then 0 else IndexOf(input, start.value, 0)
  }

  function EndIndex(input: seq<Entry>, end: Option<UserKey>): (p: nat)
    ensures p <= |input|
  {
    if end == None then |input| else IndexOf(input, end.value, 0)
  }

  ghost predicate WellUsed(input: seq<Entry>) {
    forall i :: 0 <= i < |input| ==> !Misused(input, i)
  }

  /** The first misused SingleDelete of a range, or its end. */
  ghost function FirstMisused(input: seq<Entry>, lo: nat, hi: nat): (p: nat)
    requires lo <= hi <= |input|
    ensures lo <= p <= hi && (p == hi || Misused(input, p)) && forall i :: lo <= i < p ==> !Misused(input, i)
    decreases hi - lo
  {
    if lo == hi || Misused(input, lo) then lo else FirstMisused(input, lo + 1, hi)
  }

  /** The record loop over user keys start <= k < end. It stops early, without an error of its
      own, at a misused SingleDelete. */
  method ProcessKeyValueCompaction(job: Job, input: seq<Entry>, start: Option<UserKey>, end: Option<UserKey>)
    returns (written: seq<Entry>)
    requires Sorted(input) && Mergeless(input) && JobFor(job, input)
    requires start.Some? && end.Some? ==> start.value <= end.value
    ensures StartIndex(input, start) <= EndIndex(input, end)
    ensures written == Output(job, input, StartIndex(input, start), FirstMisused(input, StartIndex(input, start), EndIndex(input, end)))
    ensures forall i :: 0 <= i < |input| ==> (StartIndex(input, start) <= i < EndIndex(input, end) <==>
              (start.Some? ==> start.value <= input[i].key) && (end.Some? ==> input[i].key < end.value))
  {
    RangeOrdered(input, start, end);
    forall i | 0 <= i < |input| ensures i < EndIndex(input, end) <==> InRange(input, end, i) {
      EndIndexIsRange(input, end, i);
    }
    written := RecordLoop(job, input, StartIndex(input, start), end, EndIndex(input, end));
  }

  /** The loop stops early exactly at a SingleDelete whose next version, if it has one, is not a Put. */
  lemma StopsAtMisuse(input: seq<Entry>, lo: nat, hi: nat, i: nat)
    requires lo <= i < hi <= |input|
    ensures input[i].kind == SingleDeletion && i + 1 < |input| && input[i + 1].key == input[i].key && input[i + 1].kind != Value ==>
            FirstMisused(input, lo, hi) <= i
    ensures i == FirstMisused(input, lo, hi) ==>
            input[i].kind == SingleDeletion && i + 1 < |input| && input[i + 1].key == input[i].key && input[i + 1].kind != Value
  {
    assert i < FirstMisused(input, lo, hi) ==> !Misused(input, i);
  }

  /** The early stop loses nothing exactly when nothing from the misused SingleDelete on would have been kept. */
  lemma StopLosesNothingIff(job: Job, input: seq<Entry>, lo: nat, hi: nat)
    requires lo <= hi <= |input|
    ensures var p := FirstMisused(input, lo, hi);
            Output(job, input, lo, p) == Output(job, input, lo, hi) <==> NoneKept(job, input, p, hi)
  {
    var p := FirstMisused(input, lo, hi);
    OutputConcat(job, input, lo, p, hi);
    if NoneKept(job, input, p, hi) {
      OutputSkips(job, input, p, p, hi);
    } else {
      var i :| p <= i < hi && Kept(job, input, i);
      OutputConcat(job, input, p, i, hi);
      OutputConcat(job, input, i, i + 1, hi);
    }
  }

  const LOSSY := [Entry(0.0, 3, SingleDeletion, []), Entry(0.0, 2, SingleDeletion, []), Entry(OneByte(0), 1, Value, [])]

  lemma LossyInput()
    ensures Sorted(LOSSY) && Mergeless(LOSSY) && FirstMisused(LOSSY, 0, 3) == 0 && EndIndex(LOSSY, None) == 3
    ensures ReadsAs(Elems(LOSSY), OneByte(0), 3, [])
  {
    assert Misused(LOSSY, 0);
    assert LOSSY[2] in Elems(LOSSY);
    assert Newest(Elems(LOSSY), OneByte(0), 3, LOSSY[2]);
  }

  /** Two SingleDeletes of one key in a row: a compaction loses the Put of the next key, and with it a read at the tip. */
  method LosesARecord() returns (written: seq<Entry>)
    ensures ReadsAs(Elems(LOSSY), OneByte(0), 3, []) && !ReadsAs(Elems(written), OneByte(0), 3, [])
  {
    LossyInput();
    written := ProcessKeyValueCompaction(Job([], 3, Some(Compaction([[], []], [], 1, false, false))), LOSSY, None, None);
    assert written == [];
  }

  ghost predicate InRange(input: seq<Entry>, end: Option<UserKey>, i: nat)
    requires i < |input|
  {
    end == None || input[i].key < end.value
  }

  method RecordLoop(job: Job, input: seq<Entry>, lo: nat, end: Option<UserKey>, ghost hi: nat)
    returns (written: seq<Entry>)
    requires Sorted(input) && Mergeless(input) && JobFor(job, input)
    requires lo <= hi <= |input| && (lo == 0 || LastOfKey(input, lo - 1))
    requires forall i :: 0 <= i < |input| ==> (i < hi <==> InRange(input, end, i))
    ensures written == Output(job, input, lo, FirstMisused(input, lo, hi))
  {
    var it := new CompactionIterator(job, input, lo);
    it.SeekToFirst();
    written := [];
    ghost var stop := if it.current <= hi then it.current else hi;
    OutputSkips(job, input, lo, lo, stop);
    written, stop := WriteAll(it, lo, end, hi);
    assert stop == FirstMisused(input, lo, hi);
  }

  /** The loop itself, from the first record on. */
  method WriteAll(it: CompactionIterator, ghost lo: nat, end: Option<UserKey>, ghost hi: nat)
    returns (written: seq<Entry>, ghost stop: nat)
    requires it.Standing() && lo <= hi <= |it.input|
    requires forall i :: 0 <= i < |it.input| ==> (i < hi <==> InRange(it.input, end, i))
    requires WroteUpTo(it.job, it.input, lo, if it.current <= hi then it.current else hi, [])
    modifies it
    ensures WroteUpTo(it.job, it.input, lo, stop, written) && stop <= hi && (stop == hi || Misused(it.input, stop))
  {
    written := [];
    stop := if it.current <= hi then it.current else hi;
    while it.valid
      invariant it.Standing()
      invariant stop == if it.current <= hi then it.current else hi
      invariant WroteUpTo(it.job, it.input, lo, stop, written)
      decreases |it.input| - it.current
    {
      assert it.current < hi <==> InRange(it.input, end, it.current);
      if end.Some? && it.currentUserKey >= end.value {
        break;
      }
      written, stop := WriteRecord(it, lo, hi, written);
    }
  }

  /** Writes the record the iterator stands on and moves on. */
  method WriteRecord(it: CompactionIterator, ghost lo: nat, ghost hi: nat, written: seq<Entry>)
    returns (more: seq<Entry>, ghost stop: nat)
    requires it.Standing() && it.valid && it.current < hi <= |it.input|
    requires WroteUpTo(it.job, it.input, lo, it.current, written)
    modifies it
    ensures it.Standing() && old(it.current) < it.current
    ensures stop == if it.current <= hi then it.current else hi
    ensures WroteUpTo(it.job, it.input, lo, stop, more)
  {
    ghost var done := it.current;
    more := written + [it.ikey];
    it.Next();
    stop := if it.current <= hi then it.current else hi;
    WroteOne(it.job, it.input, lo, done, it.current, stop, written);
  }

  /** What has been written after deciding records lo..stop, none of them misused. */
  ghost predicate WroteUpTo(job: Job, input: seq<Entry>, lo: nat, stop: nat, written: seq<Entry>) {
    && lo <= stop <= |input| && written == Output(job, input, lo, stop)
    && (forall i :: lo <= i < stop ==> !Misused(input, i))
  }

  lemma WroteOne(job: Job, input: seq<Entry>, lo: nat, done: nat, current: nat, stop: nat, written: seq<Entry>)
    requires WroteUpTo(job, input, lo, done, written) && done < stop <= current
    requires Dropped(job, input, done + 1, current) && Kept(job, input, done) && !Misused(input, done)
    ensures WroteUpTo(job, input, lo, stop, written + [Emitted(job, input[done])])
  {
    OutputSkips(job, input, lo, done + 1, stop);
  }

  lemma EndIndexIsRange(input: seq<Entry>, end: Option<UserKey>, i: nat)
    requires Sorted(input) && i < |input|
    ensures i < EndIndex(input, end) <==> InRange(input, end, i)
  {
  }

  lemma RangeOrdered(input: seq<Entry>, start: Option<UserKey>, end: Option<UserKey>)
    requires Sorted(input) && (start.Some? && end.Some? ==> start.value <= end.value)
    ensures StartIndex(input, start) <= EndIndex(input, end)
    ensures StartIndex(input, start) == 0 || StartIndex(input, start) == |input| ||
            LastOfKey(input, StartIndex(input, start) - 1)
  {
  }

  // ------------------------------------------------------------------
  // All ranges
  // ------------------------------------------------------------------

  /** Runs one iterator per range and concatenates what they write: the split is invisible. */
  method RunSubcompactions(job: Job, input: seq<Entry>, boundaries: seq<UserKey>)
    returns (written: seq<Entry>, ghost source: seq<nat>)
    requires Sorted(input) && Mergeless(input) && JobFor(job, input) && WellUsed(input)
    requires Increasing(boundaries)
    ensures written == Output(job, input, 0, |input|)
    ensures Selects(job, input, source, written)
  {
    written := [];
    for i := 0 to |boundaries| + 1
      invariant written == Output(job, input, 0, if i == 0 then 0 else EndIndex(input, EndOf(boundaries, i - 1)))
    {
      var start := if i == 0 then None else Some(boundaries[i - 1]);
      var end := EndOf(boundaries, i);
      var part := ProcessKeyValueCompaction(job, input, start, end);
      OutputConcat(job, input, 0, StartIndex(input, start), EndIndex(input, end));
      written := written + part;
    }
    source := OutputSelects(job, input);
  }

  function EndOf(boundaries: seq<UserKey>, i: nat): Option<UserKey> {
    if i < |boundaries| then Some(boundaries[i]) else None
  }

  /** A whole compaction job, split at any increasing boundaries: no reader at a live read point can
      tell its output from its input, and the output is again sorted and disciplined. Tombstones are written only
      where an older file may hold what they delete. */
  method Compact(job: Job, input: seq<Entry>, boundaries: seq<UserKey>, ghost newer: set<Entry>, ghost beyond: set<Entry>)
    returns (written: seq<Entry>, ghost source: seq<nat>)
    requires Sorted(input) && Mergeless(input) && JobFor(job, input) && Honest(job, input)
    requires Surrounds(job, input, newer, beyond) && Increasing(boundaries)
    requires forall k :: Disciplined(newer + Elems(input) + beyond, k)
    ensures forall k, s, v :: Live(job, input, s) ==>
              (ReadsAs(newer + Elems(input) + beyond, k, s, v) <==> ReadsAs(newer + Elems(written) + beyond, k, s, v))
    ensures Sorted(written)
    ensures forall k :: Disciplined(newer + Elems(written) + beyond, k)
    ensures Selects(job, input, source, written)
    ensures forall m :: 0 <= m < |written| ==> HasReason(job, written[m])
  {
    forall i | 0 <= i < |input| ensures !Misused(input, i) {
      DisciplineAvoidsMisuse(job, input, newer, beyond, i);
    }
    written, source := RunSubcompactions(job, input, boundaries);
    forall m | 0 <= m < |written| ensures HasReason(job, written[m]) {
      TombstonesHaveAReason(job, input, source, written, m);
    }
    OutputSortedUpTo(job, input, |input|);
    forall k, s, v | Live(job, input, s)
      ensures ReadsAs(newer + Elems(input) + beyond, k, s, v) <==> ReadsAs(newer + Elems(written) + beyond, k, s, v)
    {
      CompactionPreservesReads(job, input, newer, beyond, k, s, v);
    }
    forall k ensures Disciplined(newer + Elems(written) + beyond, k) {
      DisciplineSurvives(job, input, newer, beyond, k);
    }
  }
}
