/** The compaction iterator: which input records it keeps, stated as a rule about each record
    and its neighbours, and the stateful loop proved to emit exactly those records. */
module CompactionIterator {
  import opened DbFormat
  import opened CompactionLevels

  /** What a run is given besides its input. `compaction` is None for a flush. */
  datatype Job = Job(snapshots: seq<nat>, lastSequence: nat, compaction: Option<Compaction>) {
    function Earliest(): nat {
      if snapshots == [] then lastSequence else snapshots[0]
    }

    predicate Bottommost() { compaction.Some? && compaction.value.bottommost }

    /** Data for k older than the inputs can exist: for a flush anywhere, otherwise in a file that covers k. */
    ghost predicate OlderPossible(k: UserKey) {
      compaction.None? || OlderFile(compaction.value, k)
    }

    /** The code takes data for k older than the inputs to be absent. */
    ghost predicate NoOlder(k: UserKey) {
      compaction.Some? && NotBeyond(compaction.value, k)
    }
  }

  ghost predicate Mergeless(input: seq<Entry>) {
    forall i :: 0 <= i < |input| ==> input[i].kind != Merge
  }

  /** Ascending non-zero snapshots, or none and a last sequence that covers the input. */
  ghost predicate JobFor(job: Job, input: seq<Entry>) {
    && (forall i :: 0 <= i < |job.snapshots| ==> 0 < job.snapshots[i] <= MAX_SEQUENCE_NUMBER)
    && (forall i, j :: 0 <= i < j < |job.snapshots| ==> job.snapshots[i] <= job.snapshots[j])
    && (forall i :: 0 <= i < |input| ==> input[i].seqno <= MAX_SEQUENCE_NUMBER)
    && (job.snapshots == [] ==> 0 < job.lastSequence)
    && (job.snapshots == [] ==> forall i :: 0 <= i < |input| ==> input[i].seqno <= job.lastSequence)
    && (job.compaction.Some? ==> KeySortedLevels(job.compaction.value.levels))
  }

  // ------------------------------------------------------------------
  // Snapshot stripes
  // ------------------------------------------------------------------

  /** The earliest of the snapshots from index `from` on that sees sequence n. */
  function EarliestVisible(snapshots: seq<nat>, n: nat, from: nat): (s: nat)
    requires from <= |snapshots|
    ensures s == MAX_SEQUENCE_NUMBER || (n <= s && s in snapshots)
    decreases |snapshots| - from
  {
    if from == |snapshots| then MAX_SEQUENCE_NUMBER
    else if snapshots[from] >= n then snapshots[from]
    else EarliestVisible(snapshots, n, from + 1)
  }

  /** The stripe of a sequence number: the first read point that sees it. */
  function Stripe(job: Job, n: nat): (s: nat) {
    if job.snapshots == [] then job.lastSequence else EarliestVisible(job.snapshots, n, 0)
  }

  lemma {:induction false} EarliestVisibleBound(snapshots: seq<nat>, n: nat, from: nat, i: nat)
    requires from <= i < |snapshots| && n <= snapshots[i]
    requires forall a, b :: 0 <= a < b < |snapshots| ==> snapshots[a] <= snapshots[b]
    ensures n <= EarliestVisible(snapshots, n, from) <= snapshots[i]
    decreases i - from
  {
    if snapshots[from] < n {
      EarliestVisibleBound(snapshots, n, from + 1, i);
    }
  }

  /** Sequences separated by a live snapshot lie in different stripes. */
  lemma StripesSeparated(job: Job, input: seq<Entry>, s: nat, old_: nat, new_: nat)
    requires JobFor(job, input) && s in job.snapshots && old_ <= s < new_ <= MAX_SEQUENCE_NUMBER
    ensures Stripe(job, old_) < Stripe(job, new_)
  {
    var i :| 0 <= i < |job.snapshots| && job.snapshots[i] == s;
    EarliestVisibleBound(job.snapshots, old_, 0, i);
  }

  /** Everything at or below the earliest read point shares its stripe. */
  lemma EarliestStripe(job: Job, n: nat)
    requires n <= job.Earliest()
    ensures Stripe(job, n) == job.Earliest()
  {
  }

  // ------------------------------------------------------------------
  // The rule
  // ------------------------------------------------------------------

  /** Records i-1 and i are versions of one user key in one stripe. */
  ghost predicate SharesStripe(job: Job, input: seq<Entry>, i: int) {
    0 < i < |input| && input[i - 1].key == input[i].key &&
    Stripe(job, input[i - 1].seqno) == Stripe(job, input[i].seqno)
  }

  ghost predicate LastOfKey(input: seq<Entry>, i: int)
    requires 0 <= i < |input|
  {
    i + 1 == |input| || input[i + 1].key != input[i].key
  }

  /** A SingleDelete whose next record is a version of its key that is not a Put. */
  ghost predicate Misused(input: seq<Entry>, i: int)
    requires 0 <= i < |input|
  {
    input[i].kind == SingleDeletion && !LastOfKey(input, i) && input[i + 1].kind != Value
  }

  /** Which input records survive. A SingleDelete goes together with the Put in its stripe, or
      alone when nothing older can exist. Any other record goes when the record before it
      already decides its stripe, or when it is a tombstone with nothing left to hide. */
  ghost predicate Kept(job: Job, input: seq<Entry>, i: int)
    requires 0 <= i < |input|
  {
    var e := input[i];
    if e.kind == SingleDeletion then
      if LastOfKey(input, i) then !job.NoOlder(e.key) else !SharesStripe(job, input, i + 1)
    else
      !SharesStripe(job, input, i) && !(e.kind == Deletion && e.seqno <= job.Earliest() && job.NoOlder(e.key))
  }

  /** The bottommost level forgets sequence numbers that every read point sees. */
  function Emitted(job: Job, e: Entry): Entry {
    if job.Bottommost() && e.seqno < job.Earliest() then e.(seqno := 0) else e
  }

  /** The records a run writes for input records lo..hi. */
  ghost function Output(job: Job, input: seq<Entry>, lo: nat, hi: nat): (out: seq<Entry>)
    requires lo <= hi <= |input|
    decreases hi
  {
    if lo == hi then []
    else Output(job, input, lo, hi - 1) +
         if Kept(job, input, hi - 1) then [Emitted(job, input[hi - 1])] else []
  }

  ghost predicate NoneKept(job: Job, input: seq<Entry>, lo: nat, hi: nat)
    requires hi <= |input|
  {
    forall i :: lo <= i < hi ==> !Kept(job, input, i)
  }

  /** Every record from `from` up to `to` is dropped and well used. */
  ghost predicate Dropped(job: Job, input: seq<Entry>, from: nat, to: nat) {
    from <= to <= |input| && NoneKept(job, input, from, to) && forall i :: from <= i < to ==> !Misused(input, i)
  }

  lemma {:induction false} OutputSkips(job: Job, input: seq<Entry>, lo: nat, mid: nat, hi: nat)
    requires lo <= mid <= hi <= |input| && NoneKept(job, input, mid, hi)
    ensures Output(job, input, lo, hi) == Output(job, input, lo, mid)
    decreases hi
  {
    if mid < hi {
      OutputSkips(job, input, lo, mid, hi - 1);
    }
  }

  lemma {:induction false} OutputConcat(job: Job, input: seq<Entry>, lo: nat, mid: nat, hi: nat)
    requires lo <= mid <= hi <= |input|
    ensures Output(job, input, lo, hi) == Output(job, input, lo, mid) + Output(job, input, mid, hi)
    decreases hi
  {
    if mid < hi {
      OutputConcat(job, input, lo, mid, hi - 1);
    }
  }

  /** The greatest snapshot below n, or 0. */
  ghost predicate IsPrevSnapshot(snapshots: seq<nat>, n: nat, prev: nat) {
    && (forall i :: 0 <= i < |snapshots| && snapshots[i] < n ==> snapshots[i] <= prev)
    && (prev == 0 || (prev in snapshots && prev < n))
  }

  lemma {:induction false} EarliestVisibleSame(snapshots: seq<nat>, n: nat, m: nat, from: nat)
    requires from <= |snapshots| && m <= n
    requires forall i :: from <= i < |snapshots| && snapshots[i] < n ==> snapshots[i] < m
    ensures EarliestVisible(snapshots, m, from) == EarliestVisible(snapshots, n, from)
    decreases |snapshots| - from
  {
    if from < |snapshots| {
      EarliestVisibleSame(snapshots, n, m, from + 1);
    }
  }

  /** The iterator's test on the Put after a SingleDelete is a test for the same stripe. */
  lemma PairTest(job: Job, input: seq<Entry>, i: nat, prev: nat)
    requires JobFor(job, input) && Sorted(input) && i + 1 < |input| && input[i].key == input[i + 1].key
    requires if job.snapshots == [] then prev == 0 else IsPrevSnapshot(job.snapshots, input[i].seqno, prev)
    ensures (prev == 0 || input[i + 1].seqno > prev) <==> SharesStripe(job, input, i + 1)
  {
    var n, m := input[i].seqno, input[i + 1].seqno;
    if job.snapshots != [] {
      if prev == 0 || m > prev {
        EarliestVisibleSame(job.snapshots, n, m, 0);
      } else {
        StripesSeparated(job, input, prev, m, n);
      }
    }
  }

  /** Comparing remembered stripes is a test on the record before, because no stripe is 0. */
  lemma HiddenTest(job: Job, input: seq<Entry>, i: nat, last: nat)
    requires JobFor(job, input) && i < |input|
    requires last == if 0 < i && input[i - 1].key == input[i].key then Stripe(job, input[i - 1].seqno) else 0
    ensures last == Stripe(job, input[i].seqno) <==> SharesStripe(job, input, i)
  {
    assert Stripe(job, input[i].seqno) > 0;
  }

  /** Cursors that are safe for one record are safe for every later one. */
  lemma CursorsMove(c: Compaction, ptrs: seq<nat>, input: seq<Entry>, p: nat, q: nat)
    requires Sorted(input) && p <= q < |input| && CursorsBelow(c, ptrs, input[p].key)
    ensures CursorsBelow(c, ptrs, input[q].key)
  {
    assert p < q ==> input[p].key <= input[q].key;
  }

  method FindEarliestVisibleSnapshot(snapshots: seq<nat>, n: nat) returns (s: nat, prev: nat)
    requires forall i, j :: 0 <= i < j < |snapshots| ==> snapshots[i] <= snapshots[j]
    ensures s == EarliestVisible(snapshots, n, 0)
    ensures IsPrevSnapshot(snapshots, n, prev)
  {
    prev := 0;
    for i := 0 to |snapshots|
      invariant EarliestVisible(snapshots, n, 0) == EarliestVisible(snapshots, n, i)
      invariant forall j :: 0 <= j < i ==> snapshots[j] < n && snapshots[j] <= prev
      invariant prev == 0 || (prev in snapshots && prev < n)
    {
      var cur := snapshots[i];
      if cur >= n {
        return cur, prev;
      }
      prev := cur;
    }
    s := MAX_SEQUENCE_NUMBER;
  }

  // ------------------------------------------------------------------
  // The iterator
  // ------------------------------------------------------------------

  class CompactionIterator {
    const job: Job
    const input: seq<Entry>
    const visibleAtTip: nat
    const earliestSnapshot: nat
    var pos: nat                          // position of the input iterator
    var valid: bool
    var ok: bool                          // status
    var ikey: Entry                       // current record
    var hasCurrentUserKey: bool
    var atNext: bool
    var currentUserKey: UserKey
    var currentUserKeySequence: nat
    var currentUserKeySnapshot: nat
    var levelPtrs: seq<nat>
    ghost var current: nat                // input index of the current record

    /** The iterator is fed a sorted, mergeless stream. */
    ghost predicate Fed() {
      && Sorted(input) && Mergeless(input) && JobFor(job, input)
      && visibleAtTip == (if job.snapshots == [] then job.lastSequence else 0)
      && earliestSnapshot == job.Earliest()
    }

    /** The remembered key and stripe are those of the record before p. */
    ghost predicate Remembers(p: nat)
      reads this
    {
      if hasCurrentUserKey then
        && 0 < p <= |input| && currentUserKey == input[p - 1].key
        && currentUserKeySnapshot == Stripe(job, input[p - 1].seqno)
        && currentUserKeySequence >= input[p - 1].seqno
      else p == 0 || (p <= |input| && LastOfKey(input, p - 1))
    }

    ghost predicate CursorsReady(p: nat)
      reads this
    {
      job.compaction.Some? ==>
        forall q :: p <= q < |input| ==> CursorsBelow(job.compaction.value, levelPtrs, input[q].key)
    }

    /** Ready to examine record pos. */
    ghost predicate Ready()
      reads this
    {
      Fed() && ok && pos <= |input| && Remembers(pos) && CursorsReady(pos)
    }

    /** Standing on an emitted record, or finished. */
    ghost predicate Standing()
      reads this
    {
      && Fed()
      && (valid ==>
            && current < |input| && Kept(job, input, current) && !Misused(input, current)
            && ikey == Emitted(job, input[current]) && currentUserKey == ikey.key
            && ok && Remembers(current + 1) && CursorsReady(current + 1)
            && pos == (if atNext then current + 1 else current))
      && (!valid && ok ==> current == |input|)
      && (!valid && !ok ==> current < |input| && Misused(input, current))
    }

    /** The input iterator stands at index `start`, the first record of its user key. */
    constructor (job: Job, input: seq<Entry>, start: nat)
      requires Sorted(input) && Mergeless(input) && JobFor(job, input)
      requires start <= |input| && (start == 0 || LastOfKey(input, start - 1))
      ensures this.job == job && this.input == input
      ensures Ready() && pos == start
    {
      this.job, this.input := job, input;
      visibleAtTip := if job.snapshots == [] then job.lastSequence else 0;
      earliestSnapshot := if job.snapshots == [] then job.lastSequence else job.snapshots[0];
      pos, valid, ok, hasCurrentUserKey, atNext := start, false, true, false, false;
      ikey := Entry(0.0, 0, Value, []);
      currentUserKey, currentUserKeySequence, currentUserKeySnapshot := 0.0, 0, 0;
      levelPtrs := if job.compaction.Some? then seq(|job.compaction.value.levels|, _ => 0) else [];
      current := 0;
    }

    method SeekToFirst()
      requires Ready()
      modifies this
      ensures Standing() && Dropped(job, input, old(pos), current)
    {
      NextFromInput();
      PrepareOutput();
    }

    method Next()
      requires Standing() && valid
      modifies this
      ensures Standing() && Dropped(job, input, old(current) + 1, current)
    {
      if !atNext {
        pos := pos + 1;
      }
      NextFromInput();
      PrepareOutput();
    }

    /** The current record survives. */
    ghost predicate Found()
      reads this
    {
      && current < |input| && Kept(job, input, current) && !Misused(input, current)
      && ok && ikey == input[current] && currentUserKey == ikey.key && Remembers(current + 1) && CursorsReady(current + 1)
      && pos == (if atNext then current + 1 else current)
    }

    /** Runs to the next surviving record, which becomes current. */
    method NextFromInput()
      requires Ready()
      modifies this
      ensures Dropped(job, input, old(pos), current)
      ensures valid ==> Found()
      ensures !valid && ok ==> current == |input|
      ensures !ok ==> !valid && current < |input| && Misused(input, current)
    {
      atNext, valid, current := false, false, pos;
      while !valid && pos < |input|
        invariant Dropped(job, input, old(pos), current)
        invariant !valid ==> Ready() && !atNext && current == pos
        invariant valid ==> Found()
        decreases !valid, |input| - pos
      {
        current := pos;
        Examine();
        if !ok {
          break;
        }
        if !valid {
          assert Dropped(job, input, current, pos);
          current := pos;
        }
      }
    }

    /** The outcome of examining record `current`, given whether it and the records skipped
        with it survive. */
    ghost predicate Examined()
      reads this
    {
      if !ok then !valid && current < |input| && Misused(input, current)
      else if valid then Found()
      else Ready() && !atNext && current < pos && Dropped(job, input, current, pos)
    }

    /** Comparing the next version with prev tells whether it shares the stripe of record pos. */
    ghost predicate PairTestWorks(prev: nat)
      reads this
    {
      pos + 1 < |input| && input[pos + 1].key == input[pos].key ==>
        ((prev == 0 || input[pos + 1].seqno > prev) <==> SharesStripe(job, input, pos + 1))
    }

    /** Loads record pos; a new user key resets the remembered stripe to 0. */
    method NoteKey()
      requires Ready() && pos < |input|
      modifies this`ikey, this`currentUserKey, this`hasCurrentUserKey,
               this`currentUserKeySequence, this`currentUserKeySnapshot
      ensures ikey == input[pos] && hasCurrentUserKey && currentUserKey == ikey.key
      ensures currentUserKeySequence >= ikey.seqno
      ensures currentUserKeySnapshot ==
              if 0 < pos && input[pos - 1].key == ikey.key then Stripe(job, input[pos - 1].seqno) else 0
    {
      ikey := input[pos];
      if !hasCurrentUserKey || ikey.key != currentUserKey {
        currentUserKey := ikey.key;
        hasCurrentUserKey := true;
        currentUserKeySequence := MAX_SEQUENCE_NUMBER;
        currentUserKeySnapshot := 0;
      }
    }

    /** Moves the remembered key and stripe to record pos. */
    method Track() returns (lastSequence: nat, lastSnapshot: nat, prevSnapshot: nat)
      requires Ready() && pos < |input|
      modifies this`ikey, this`currentUserKey, this`hasCurrentUserKey,
               this`currentUserKeySequence, this`currentUserKeySnapshot
      ensures ikey == input[pos] && hasCurrentUserKey && Remembers(pos + 1)
      ensures currentUserKeySequence == ikey.seqno && lastSequence >= ikey.seqno
      ensures lastSnapshot == currentUserKeySnapshot <==> SharesStripe(job, input, pos)
      ensures PairTestWorks(prevSnapshot)
    {
      NoteKey();
      lastSequence, lastSnapshot := currentUserKeySequence, currentUserKeySnapshot;
      currentUserKeySequence := ikey.seqno;
      prevSnapshot := 0;
      if visibleAtTip != 0 {
        currentUserKeySnapshot := visibleAtTip;
      } else {
        currentUserKeySnapshot, prevSnapshot := FindEarliestVisibleSnapshot(job.snapshots, ikey.seqno);
      }
      assert currentUserKeySnapshot == Stripe(job, ikey.seqno);
      HiddenTest(job, input, pos, lastSnapshot);
      if pos + 1 < |input| && input[pos + 1].key == ikey.key {
        PairTest(job, input, pos, prevSnapshot);
      }
    }

    /** Asks the compaction, when there is one, about the current record's key. */
    method QueryBeyond() returns (notBeyond: bool)
      requires Fed() && current < |input| && ikey == input[current] && CursorsReady(current)
      modifies this`levelPtrs
      ensures notBeyond <==> job.NoOlder(ikey.key)
      ensures CursorsReady(current)
    {
      if job.compaction == None {
        return false;
      }
      notBeyond, levelPtrs := KeyNotExistsBeyondOutputLevel(job.compaction.value, ikey.key, levelPtrs);
      forall q | current <= q < |input|
        ensures CursorsBelow(job.compaction.value, levelPtrs, input[q].key)
      {
        CursorsMove(job.compaction.value, levelPtrs, input, current, q);
      }
    }

    /** One round of the loop of NextFromInput. */
    method Examine()
      requires Ready() && pos < |input| && current == pos && !valid && !atNext
      modifies this
      ensures current == old(current) && Examined()
    {
      var lastSequence, lastSnapshot, prevSnapshot := Track();
      if ikey.kind == SingleDeletion {
        ExamineSingleDelete(prevSnapshot);
      } else if lastSnapshot == currentUserKeySnapshot {
        assert lastSequence >= currentUserKeySequence;
        pos := pos + 1;
      } else {
        ExamineTop();
      }
    }

    /** The newest version in its stripe: only an obsolete tombstone goes. */
    method ExamineTop()
      requires Fed() && ok && pos < |input| && current == pos && !valid && !atNext
      requires hasCurrentUserKey && Remembers(pos + 1) && CursorsReady(pos)
      requires ikey == input[pos] && ikey.kind != SingleDeletion && !SharesStripe(job, input, pos)
      modifies this
      ensures current == old(current) && Examined()
    {
      var notBeyond := false;
      if ikey.kind == Deletion && ikey.seqno <= earliestSnapshot {
        notBeyond := QueryBeyond();
      }
      if notBeyond {
        pos := pos + 1;
      } else {
        valid := true;
      }
    }

    /** The SingleDelete branch: look one record ahead. */
    method ExamineSingleDelete(prevSnapshot: nat)
      requires Fed() && ok && pos < |input| && current == pos && !valid && !atNext
      requires hasCurrentUserKey && Remembers(pos + 1) && CursorsReady(pos)
      requires ikey == input[pos] && ikey.kind == SingleDeletion
      requires PairTestWorks(prevSnapshot)
      modifies this
      ensures current == old(current) && Examined()
    {
      pos := pos + 1;
      if pos < |input| && input[pos].key == ikey.key {
        if input[pos].kind != Value {
          ok := false;
        } else if prevSnapshot == 0 || input[pos].seqno > prevSnapshot {
          pos := pos + 1;
        } else {
          valid, atNext := true, true;
        }
      } else {
        ExamineLoneSingleDelete();
      }
    }

    /** No older version of the key follows in the input. */
    method ExamineLoneSingleDelete()
      requires Fed() && ok && current < |input| && pos == current + 1 && !valid && !atNext
      requires LastOfKey(input, current) && CursorsReady(current) && currentUserKey == ikey.key
      requires ikey == input[current] && ikey.kind == SingleDeletion
      modifies this
      ensures current == old(current) && Examined()
    {
      hasCurrentUserKey := false;
      var notBeyond := QueryBeyond();
      if !notBeyond {
        valid := true;
      }
      if valid {
        atNext := true;
      }
    }

    /** Zeroes the sequence number where every read point sees the record. */
    method PrepareOutput()
      requires valid ==> current < |input| && ikey == input[current] && Fed()
      modifies this`ikey
      ensures valid ==> ikey == Emitted(job, input[current])
    {
      if job.Bottommost() && valid && ikey.seqno < earliestSnapshot {
        ikey := ikey.(seqno := 0);
      }
    }
  }
}
