/** What a compaction writes, spelled out in terms of snapshots and files: which input records are written, and with which
    sequence numbers. The rule of the iterator is proved to be this one. */
module CompactionOutput {
  import opened DbFormat
  import opened CompactionLevels
  import opened CompactionIterator

  /** Some snapshot sees the older version and not the newer one. */
  ghost predicate Separated(job: Job, newer: nat, older: nat) {
    exists s :: s in job.snapshots && older <= s < newer
  }

  /** Every snapshot sees the sequence number; without snapshots only the tip reads. */
  ghost predicate SeenByAll(job: Job, n: nat) {
    forall s :: s in job.snapshots ==> n <= s
  }

  /** A file beyond the output level has k in its range. */
  ghost predicate FileBeyond(c: Compaction, k: UserKey) {
    exists l, j :: c.outputLevel < l < |c.levels| && 0 <= j < |c.levels[l]| && c.levels[l][j].smallest <= k <= c.levels[l][j].largest
  }

  /** The run takes k to have no older data: never in a flush, in universal style if it is bottommost, and in level style if
      no file beyond the output level has k in its range, bottommost or not. */
  ghost predicate TakenAsGone(job: Job, k: UserKey) {
    job.compaction.Some? && if job.compaction.value.universal then job.compaction.value.bottommost else !FileBeyond(job.compaction.value, k)
  }

  /** No older version of its key follows record i. */
  ghost predicate Lone(input: seq<Entry>, i: int)
    requires 0 <= i < |input|
  {
    i + 1 < |input| ==> input[i + 1].key != input[i].key
  }

  /** The next newer version of the key of record i is in the same snapshot stripe. */
  ghost predicate Hidden(job: Job, input: seq<Entry>, i: int)
    requires 0 <= i < |input|
  {
    0 < i && input[i - 1].key == input[i].key && !Separated(job, input[i - 1].seqno, input[i].seqno)
  }

  /** A lone SingleDelete is written unless its key is taken to have no older data, another one unless the version below
      it is in its stripe. Any other record is written unless it is hidden, or a Delete that all see and whose key is
      taken to have no older data. */
  ghost predicate Written(job: Job, input: seq<Entry>, i: int)
    requires 0 <= i < |input|
  {
    var e := input[i];
    if e.kind == SingleDeletion then
      if Lone(input, i) then !TakenAsGone(job, e.key) else Separated(job, e.seqno, input[i + 1].seqno)
    else !Hidden(job, input, i) && !(e.kind == Deletion && SeenByAll(job, e.seqno) && TakenAsGone(job, e.key))
  }

  /** The sequence number that is written: 0 in a bottommost compaction for what every snapshot sees and is older than. */
  ghost function WrittenSequence(job: Job, n: nat): nat {
    if && job.compaction.Some? && job.compaction.value.bottommost
       && (job.snapshots == [] ==> n < job.lastSequence) && (forall s :: s in job.snapshots ==> n < s)
    then 0 else n
  }

  /** `written` is the input at the increasing positions `source`, which are exactly those of the records to be written. */
  ghost predicate Selects(job: Job, input: seq<Entry>, source: seq<nat>, written: seq<Entry>) {
    && |source| == |written|
    && (forall m :: 0 <= m < |source| ==> source[m] < |input|)
    && (forall m, n :: 0 <= m < n < |source| ==> source[m] < source[n])
    && (forall m :: 0 <= m < |source| ==>
          written[m] == input[source[m]].(seqno := WrittenSequence(job, input[source[m]].seqno)))
    && (forall i :: 0 <= i < |input| ==> (i in source <==> Written(job, input, i)))
  }

  // ------------------------------------------------------------------
  // The rule of the iterator
  // ------------------------------------------------------------------

  lemma SharesStripeIff(job: Job, input: seq<Entry>, i: nat)
    requires JobFor(job, input) && Sorted(input) && 0 < i < |input| && input[i - 1].key == input[i].key
    ensures SharesStripe(job, input, i) <==> !Separated(job, input[i - 1].seqno, input[i].seqno)
  {
    var n, m := input[i - 1].seqno, input[i].seqno;
    if s :| s in job.snapshots && m <= s < n {
      StripesSeparated(job, input, s, m, n);
    } else if job.snapshots != [] {
      forall a | 0 <= a < |job.snapshots| && job.snapshots[a] < n ensures job.snapshots[a] < m {
        assert job.snapshots[a] in job.snapshots;
      }
      EarliestVisibleSame(job.snapshots, n, m, 0);
    }
  }

  lemma EarliestIsLeast(job: Job, input: seq<Entry>, i: nat)
    requires JobFor(job, input) && i < |input|
    ensures input[i].seqno <= job.Earliest() <==> SeenByAll(job, input[i].seqno)
    ensures WrittenSequence(job, input[i].seqno) == if job.Bottommost() && input[i].seqno < job.Earliest() then 0 else input[i].seqno
  {
    assert forall s :: s in job.snapshots ==> job.snapshots[0] <= s;
    assert job.snapshots != [] ==> job.snapshots[0] in job.snapshots;
  }

  lemma NoOlderIff(job: Job, k: UserKey)
    ensures job.NoOlder(k) <==> TakenAsGone(job, k)
  {
    if job.compaction.Some? {
      var c := job.compaction.value;
      assert forall l, j :: c.outputLevel < l < |c.levels| && 0 <= j < |c.levels[l]| ==>
          (c.levels[l][j].Covers(k) <==> c.levels[l][j].smallest <= k <= c.levels[l][j].largest);
    }
  }

  lemma HiddenIff(job: Job, input: seq<Entry>, i: nat)
    requires JobFor(job, input) && Sorted(input) && i < |input|
    ensures SharesStripe(job, input, i) <==> Hidden(job, input, i)
  {
    if 0 < i && input[i - 1].key == input[i].key {
      SharesStripeIff(job, input, i);
    }
  }

  lemma SingleDeleteKeptIff(job: Job, input: seq<Entry>, i: nat)
    requires JobFor(job, input) && Sorted(input) && i < |input| && input[i].kind == SingleDeletion
    ensures Kept(job, input, i) <==> Written(job, input, i)
  {
    NoOlderIff(job, input[i].key);
    if !Lone(input, i) {
      SharesStripeIff(job, input, i + 1);
    }
  }

  /** The iterator keeps exactly the records to be written. */
  lemma KeptIff(job: Job, input: seq<Entry>, i: nat)
    requires JobFor(job, input) && Sorted(input) && i < |input|
    ensures Kept(job, input, i) <==> Written(job, input, i)
  {
    if input[i].kind == SingleDeletion {
      SingleDeleteKeptIff(job, input, i);
    } else {
      EarliestIsLeast(job, input, i);
      NoOlderIff(job, input[i].key);
      HiddenIff(job, input, i);
    }
  }

  lemma {:induction false} Positions(job: Job, input: seq<Entry>, hi: nat) returns (source: seq<nat>)
    requires hi <= |input|
    ensures |source| == |Output(job, input, 0, hi)|
    ensures forall m :: 0 <= m < |source| ==> source[m] < hi && Output(job, input, 0, hi)[m] == Emitted(job, input[source[m]])
    ensures forall m, n :: 0 <= m < n < |source| ==> source[m] < source[n]
    ensures forall i :: 0 <= i < hi ==> (i in source <==> Kept(job, input, i))
  {
    source := [];
    if hi > 0 {
      source := Positions(job, input, hi - 1);
      if Kept(job, input, hi - 1) {
        source := source + [hi - 1];
      }
    }
  }

  /** What the rule writes is what is spelled out above. */
  lemma OutputSelects(job: Job, input: seq<Entry>) returns (source: seq<nat>)
    requires JobFor(job, input) && Sorted(input)
    ensures Selects(job, input, source, Output(job, input, 0, |input|))
  {
    source := Positions(job, input, |input|);
    forall i | 0 <= i < |input|
      ensures Kept(job, input, i) <==> Written(job, input, i)
      ensures Emitted(job, input[i]) == input[i].(seqno := WrittenSequence(job, input[i].seqno))
    {
      KeptIff(job, input, i);
      EarliestIsLeast(job, input, i);
    }
  }

  // ------------------------------------------------------------------
  // What is gone
  // ------------------------------------------------------------------

  /** If e is a Delete that the earliest reader sees then there may be older data: in level style a file beyond the output
      level has its key in range, whether the compaction is bottommost or not. */
  ghost predicate HasReason(job: Job, e: Entry) {
    e.kind == Deletion && e.seqno <= job.Earliest() && job.compaction.Some? ==>
      if job.compaction.value.universal then !job.compaction.value.bottommost else FileBeyond(job.compaction.value, e.key)
  }

  lemma TombstonesHaveAReason(job: Job, input: seq<Entry>, source: seq<nat>, written: seq<Entry>, m: nat)
    requires JobFor(job, input) && Selects(job, input, source, written) && m < |written|
    ensures HasReason(job, written[m])
  {
    var i := source[m];
    assert i in source;
    EarliestIsLeast(job, input, i);
  }

  /** The same for a lone SingleDelete, whatever the snapshots see. */
  lemma LoneSingleDeletesHaveAReason(job: Job, input: seq<Entry>, source: seq<nat>, written: seq<Entry>, i: nat)
    requires Selects(job, input, source, written) && i in source && job.compaction.Some?
    requires input[i].kind == SingleDeletion && Lone(input, i)
    ensures if job.compaction.value.universal then !job.compaction.value.bottommost
            else FileBeyond(job.compaction.value, input[i].key)
  {
  }

  /** A SingleDelete and the Put below it in one stripe are both gone. */
  lemma PairsAreGone(job: Job, input: seq<Entry>, source: seq<nat>, written: seq<Entry>, i: nat)
    requires Selects(job, input, source, written) && i + 1 < |input| && input[i].key == input[i + 1].key
    requires input[i].kind == SingleDeletion && input[i + 1].kind == Value && !Separated(job, input[i].seqno, input[i + 1].seqno)
    ensures i !in source && i + 1 !in source
  {
  }
}
