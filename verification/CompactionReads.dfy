/** What a compaction means for readers: replacing its input by its output changes no read at a
    live read point. Also the shape of the output. */
module CompactionReads {
  import opened DbFormat
  import opened CompactionLevels
  import opened CompactionIterator

  // ------------------------------------------------------------------
  // Reading a store
  // ------------------------------------------------------------------

  /** e is the newest version of k that sequence s sees. */
  ghost predicate Newest(store: set<Entry>, k: UserKey, s: nat, e: Entry) {
    && e in store && e.key == k && e.seqno <= s
    && (forall f :: f in store && f.key == k && f.seqno <= s ==> f.seqno <= e.seqno)
  }

  /** A read of k at sequence s returns value v. */
  ghost predicate ReadsAs(store: set<Entry>, k: UserKey, s: nat, v: Bytes) {
    exists e :: Newest(store, k, s, e) && e.kind == Value && e.value == v
  }

  ghost function Elems(es: seq<Entry>): set<Entry> {
    set e | e in es
  }

  /** The input records that survive, as they are written. */
  ghost function Survivors(job: Job, input: seq<Entry>): set<Entry> {
    set i | 0 <= i < |input| && Kept(job, input, i) :: Emitted(job, input[i])
  }

  /** Other data for an input key is newer than the inputs, or older and in an older file that covers the key. This
      speaks of the files there are, not of what the code believes about them. */
  ghost predicate Surrounds(job: Job, input: seq<Entry>, newer: set<Entry>, beyond: set<Entry>) {
    && (forall e, i :: e in newer && 0 <= i < |input| && e.key == input[i].key ==> e.seqno > input[i].seqno)
    && (forall e, i :: e in beyond && 0 <= i < |input| && e.key == input[i].key ==>
          e.seqno < input[i].seqno && job.OlderPossible(e.key))
  }

  /** The sequence numbers of k leave room for older data: no Put or Delete of it is at 0. */
  ghost predicate RoomBelow(input: seq<Entry>, k: UserKey) {
    forall i :: 0 <= i < |input| && input[i].key == k ==> input[i].seqno > 0 || input[i].kind == SingleDeletion
  }

  /** A tombstone dropped because the code takes older data to be absent. */
  ghost predicate Obsolete(job: Job, input: seq<Entry>, i: int)
    requires 0 <= i < |input|
  {
    && !Kept(job, input, i)
    && (if input[i].kind == SingleDeletion then LastOfKey(input, i) else input[i].kind == Deletion && !SharesStripe(job, input, i))
  }

  /** A survivor that loses its sequence number. */
  ghost predicate Zeroed(job: Job, input: seq<Entry>, i: int)
    requires 0 <= i < |input|
  {
    Kept(job, input, i) && job.Bottommost() && 0 < input[i].seqno < job.Earliest()
  }

  /** Sequence numbers are zeroed only where no older file covers the key. */
  ghost predicate ZeroingHonest(job: Job, input: seq<Entry>) {
    forall i :: 0 <= i < |input| && Zeroed(job, input, i) && RoomBelow(input, input[i].key) ==> !job.OlderPossible(input[i].key)
  }

  /** Tombstones are dropped as obsolete only where no older file covers the key. */
  ghost predicate DropsHonest(job: Job, input: seq<Entry>) {
    forall i :: 0 <= i < |input| && Obsolete(job, input, i) && RoomBelow(input, input[i].key) ==> !job.OlderPossible(input[i].key)
  }

  /** The code's tests for older data are right wherever the run acts on them. */
  ghost predicate Honest(job: Job, input: seq<Entry>) {
    ZeroingHonest(job, input) && DropsHonest(job, input)
  }

  /** A read point that must be preserved: a snapshot, or one that sees the whole input. */
  ghost predicate Live(job: Job, input: seq<Entry>, s: nat) {
    s in job.snapshots || forall i :: 0 <= i < |input| ==> input[i].seqno <= s
  }

  /** Two versions of k with none between them. */
  ghost predicate Adjacent(store: set<Entry>, k: UserKey, e: Entry, f: Entry) {
    && e in store && f in store && e.key == k && f.key == k && e.seqno > f.seqno
    && (forall g :: g in store && g.key == k ==> g.seqno >= e.seqno || g.seqno <= f.seqno)
  }

  /** The history of k alternates Put and SingleDelete. */
  ghost predicate Alternates(store: set<Entry>, k: UserKey) {
    && (forall e :: e in store && e.key == k ==> e.kind == Value || e.kind == SingleDeletion)
    && (forall e, f :: Adjacent(store, k, e, f) ==> e.kind != f.kind)
  }

  /** SingleDelete is used on k, if at all, only against single Puts. */
  ghost predicate Disciplined(store: set<Entry>, k: UserKey) {
    (forall e :: e in store && e.key == k ==> e.kind != SingleDeletion) || Alternates(store, k)
  }

  /** The setting shared by the lemmas below. */
  ghost predicate Setting(job: Job, input: seq<Entry>, newer: set<Entry>, beyond: set<Entry>) {
    Sorted(input) && Mergeless(input) && JobFor(job, input) && Honest(job, input) && Surrounds(job, input, newer, beyond)
  }

  // ------------------------------------------------------------------
  // The output as a set, and its order
  // ------------------------------------------------------------------

  lemma {:induction false} OutputMembers(job: Job, input: seq<Entry>, hi: nat, e: Entry)
    requires hi <= |input|
    ensures e in Output(job, input, 0, hi) <==>
            exists i :: 0 <= i < hi && Kept(job, input, i) && Emitted(job, input[i]) == e
  {
    if hi > 0 {
      OutputMembers(job, input, hi - 1, e);
    }
  }

  lemma OutputIsSurvivors(job: Job, input: seq<Entry>)
    ensures Elems(Output(job, input, 0, |input|)) == Survivors(job, input)
  {
    forall e ensures e in Elems(Output(job, input, 0, |input|)) <==> e in Survivors(job, input) {
      OutputMembers(job, input, |input|, e);
    }
  }

  /** Versions of one key are contiguous. */
  lemma Contiguous(input: seq<Entry>, i: nat, j: nat, m: nat)
    requires Sorted(input) && i <= m <= j < |input| && input[i].key == input[j].key
    ensures input[m].key == input[i].key
  {
  }

  lemma {:induction false} EarliestVisibleMonotone(snapshots: seq<nat>, m: nat, n: nat, from: nat)
    requires from <= |snapshots| && m <= n
    requires forall a, b :: 0 <= a < b < |snapshots| ==> snapshots[a] <= snapshots[b]
    requires forall i :: 0 <= i < |snapshots| ==> snapshots[i] <= MAX_SEQUENCE_NUMBER
    ensures EarliestVisible(snapshots, m, from) <= EarliestVisible(snapshots, n, from)
    decreases |snapshots| - from
  {
    if from < |snapshots| {
      EarliestVisibleMonotone(snapshots, m, n, from + 1);
      if snapshots[from] >= m && snapshots[from] < n {
        assert EarliestVisible(snapshots, n, from) in snapshots || EarliestVisible(snapshots, n, from) == MAX_SEQUENCE_NUMBER;
      }
    }
  }

  lemma StripeMonotone(job: Job, input: seq<Entry>, m: nat, n: nat)
    requires JobFor(job, input) && m <= n
    ensures Stripe(job, m) <= Stripe(job, n)
  {
    if job.snapshots != [] {
      EarliestVisibleMonotone(job.snapshots, m, n, 0);
    }
  }

  /** In the earliest stripe only the newest version of a key can survive. */
  lemma EarliestStripeCollapses(job: Job, input: seq<Entry>, i: nat, j: nat)
    requires Sorted(input) && JobFor(job, input) && i < j < |input| && input[i].key == input[j].key
    requires input[i].seqno <= job.Earliest() && job.NoOlder(input[i].key)
    ensures !Kept(job, input, j)
  {
    Contiguous(input, i, j, j - 1);
    assert input[j].seqno < input[i].seqno && input[j - 1].seqno <= input[i].seqno;
    EarliestStripe(job, input[j - 1].seqno);
    EarliestStripe(job, input[j].seqno);
    assert SharesStripe(job, input, j);
    if !LastOfKey(input, j) {
      EarliestStripe(job, input[j + 1].seqno);
    }
  }

  /** No tombstone survives into the range whose sequence numbers are zeroed. */
  lemma TombstoneNeverZeroed(job: Job, input: seq<Entry>, i: nat)
    requires Sorted(input) && JobFor(job, input) && i < |input| && Kept(job, input, i)
    requires job.Bottommost() ==> job.NoOlder(input[i].key)
    ensures Emitted(job, input[i]) != input[i] ==> !input[i].Tombstone()
  {
    if input[i].seqno < job.Earliest() && !LastOfKey(input, i) {
      EarliestStripe(job, input[i].seqno);
      EarliestStripe(job, input[i + 1].seqno);
    }
  }

  /** Surviving versions of a key keep their order, zeroed or not. */
  lemma SurvivorsDescend(job: Job, input: seq<Entry>, i: nat, j: nat)
    requires Sorted(input) && JobFor(job, input) && i < j < |input| && input[i].key == input[j].key
    requires ZeroingHonest(job, input) && Kept(job, input, i)
    ensures Kept(job, input, j) ==> Emitted(job, input[i]).seqno > Emitted(job, input[j]).seqno
  {
    if job.Bottommost() && input[i].seqno < job.Earliest() {
      if RoomBelow(input, input[i].key) {
        EarliestStripeCollapses(job, input, i, j);
      } else {
        RoomlessCollapses(job, input, i, j);
      }
    }
  }

  /** Where no older data fits, the oldest input version is no SingleDelete, so the stripe collapses too. */
  lemma RoomlessCollapses(job: Job, input: seq<Entry>, i: nat, j: nat)
    requires Sorted(input) && JobFor(job, input) && i < j < |input| && input[i].key == input[j].key
    requires input[i].seqno <= job.Earliest() && !RoomBelow(input, input[i].key)
    ensures !Kept(job, input, j)
  {
    var z :| 0 <= z < |input| && input[z].key == input[i].key && input[z].seqno == 0 && input[z].kind != SingleDeletion;
    Contiguous(input, i, j, j - 1);
    assert j < z ==> input[j + 1].key == input[i].key by {
      if j < z { Contiguous(input, i, z, j + 1); }
    }
    EarliestStripe(job, input[j - 1].seqno);
    EarliestStripe(job, input[j].seqno);
    assert SharesStripe(job, input, j);
    if j < z {
      EarliestStripe(job, input[j + 1].seqno);
    }
  }

  /** What was written before a survivor comes before it. */
  lemma OutputBefore(job: Job, input: seq<Entry>, hi: nat, e: Entry)
    requires Sorted(input) && JobFor(job, input) && ZeroingHonest(job, input) && hi < |input| && Kept(job, input, hi)
    requires e in Output(job, input, 0, hi)
    ensures e.key < input[hi].key || (e.key == input[hi].key && e.seqno > Emitted(job, input[hi]).seqno)
  {
    OutputMembers(job, input, hi, e);
    var i :| 0 <= i < hi && Kept(job, input, i) && Emitted(job, input[i]) == e;
    if input[i].key == input[hi].key {
      SurvivorsDescend(job, input, i, hi);
    }
  }

  lemma {:induction false} OutputSortedUpTo(job: Job, input: seq<Entry>, hi: nat)
    requires Sorted(input) && JobFor(job, input) && ZeroingHonest(job, input) && hi <= |input|
    ensures Sorted(Output(job, input, 0, hi))
  {
    if hi > 0 && Kept(job, input, hi - 1) {
      var out := Output(job, input, 0, hi - 1);
      OutputSortedUpTo(job, input, hi - 1);
      forall a | 0 <= a < |out|
        ensures out[a].key < input[hi - 1].key ||
                (out[a].key == input[hi - 1].key && out[a].seqno > Emitted(job, input[hi - 1]).seqno)
      {
        OutputBefore(job, input, hi - 1, out[a]);
      }
    } else if hi > 0 {
      OutputSortedUpTo(job, input, hi - 1);
    }
  }

  /** The output is strictly increasing in internal-key order and holds no zeroed tombstone. */
  lemma OutputWellFormed(job: Job, input: seq<Entry>)
    requires Sorted(input) && JobFor(job, input)
    requires job.Bottommost() ==> forall i :: 0 <= i < |input| ==> !job.OlderPossible(input[i].key)
    ensures ZeroingHonest(job, input)
    ensures Sorted(Output(job, input, 0, |input|))
    ensures job.Bottommost() ==> forall e :: e in Output(job, input, 0, |input|) && e.Tombstone() ==>
              e.seqno >= job.Earliest()
  {
    OutputSortedUpTo(job, input, |input|);
    forall e | e in Output(job, input, 0, |input|) && job.Bottommost() && e.Tombstone()
      ensures e.seqno >= job.Earliest()
    {
      OutputMembers(job, input, |input|, e);
      var i :| 0 <= i < |input| && Kept(job, input, i) && Emitted(job, input[i]) == e;
      TombstoneNeverZeroed(job, input, i);
    }
  }

  /** Without SingleDeletes the output has at most one record per user key and stripe. */
  lemma OnePerStripe(job: Job, input: seq<Entry>, i: nat, j: nat)
    requires Sorted(input) && JobFor(job, input)
    requires forall m :: 0 <= m < |input| ==> input[m].kind != SingleDeletion
    requires i < j < |input| && input[i].key == input[j].key && Kept(job, input, i) && Kept(job, input, j)
    ensures Stripe(job, Emitted(job, input[i]).seqno) > Stripe(job, Emitted(job, input[j]).seqno)
  {
    Contiguous(input, i, j, j - 1);
    assert !SharesStripe(job, input, j);
    StripeMonotone(job, input, input[j].seqno, input[j - 1].seqno);
    assert input[j - 1].seqno <= input[i].seqno;
    StripeMonotone(job, input, input[j - 1].seqno, input[i].seqno);
    StripeOfEmitted(job, input[i]);
    StripeOfEmitted(job, input[j]);
  }

  lemma StripeOfEmitted(job: Job, e: Entry)
    ensures Stripe(job, Emitted(job, e).seqno) == Stripe(job, e.seqno)
  {
    if job.Bottommost() && e.seqno < job.Earliest() {
      EarliestStripe(job, e.seqno);
      EarliestStripe(job, 0);
    }
  }

  // ------------------------------------------------------------------
  // Reads
  // ------------------------------------------------------------------

  /** i is the newest input version of k that s sees. */
  ghost predicate FirstVisible(input: seq<Entry>, k: UserKey, s: nat, i: int) {
    && 0 <= i < |input| && input[i].key == k && input[i].seqno <= s
    && (i > 0 && input[i - 1].key == k ==> input[i - 1].seqno > s)
  }

  lemma {:induction false} FindFirstVisible(input: seq<Entry>, k: UserKey, s: nat, j: nat) returns (i: nat)
    requires Sorted(input) && j < |input| && input[j].key == k && input[j].seqno <= s
    ensures FirstVisible(input, k, s, i) && i <= j
  {
    i := j;
    if j > 0 && input[j - 1].key == k && input[j - 1].seqno <= s {
      i := FindFirstVisible(input, k, s, j - 1);
    }
  }

  /** Versions that s does not see are never zeroed. */
  lemma UnseenStaysUnseen(job: Job, input: seq<Entry>, s: nat, j: nat)
    requires JobFor(job, input) && Live(job, input, s) && j < |input|
    ensures input[j].seqno > s ==> Emitted(job, input[j]) == input[j]
  {
    assert input[j].seqno > s ==> s in job.snapshots;
    assert s in job.snapshots ==> job.Earliest() <= s;
  }

  /** Versions above the first visible one stay invisible. */
  lemma AboveStaysUnseen(job: Job, input: seq<Entry>, k: UserKey, s: nat, i: nat)
    requires Sorted(input) && JobFor(job, input) && Live(job, input, s) && FirstVisible(input, k, s, i)
    ensures forall j :: 0 <= j < i && input[j].key == k ==> Emitted(job, input[j]).seqno > s
  {
    forall j | 0 <= j < i && input[j].key == k
      ensures Emitted(job, input[j]).seqno > s
    {
      Contiguous(input, j, i, i - 1);
      UnseenStaysUnseen(job, input, s, j);
    }
  }

  /** The first visible version is the newest of its stripe. */
  lemma FirstVisibleTopsStripe(job: Job, input: seq<Entry>, k: UserKey, s: nat, i: nat)
    requires JobFor(job, input) && Sorted(input) && Live(job, input, s) && FirstVisible(input, k, s, i)
    ensures !SharesStripe(job, input, i)
  {
    if i > 0 && input[i - 1].key == k {
      StripesSeparated(job, input, s, input[i].seqno, input[i - 1].seqno);
    }
  }

  ghost function Prior(input: seq<Entry>, newer: set<Entry>, beyond: set<Entry>): set<Entry> {
    newer + Elems(input) + beyond
  }

  ghost function After(job: Job, input: seq<Entry>, newer: set<Entry>, beyond: set<Entry>): set<Entry> {
    newer + Survivors(job, input) + beyond
  }

  /** s sees no newer version of k than the inputs'. */
  ghost predicate NewerUnseen(newer: set<Entry>, k: UserKey, s: nat) {
    forall e :: e in newer && e.key == k ==> e.seqno > s
  }

  /** Before the compaction, the first visible input version is what s reads. */
  lemma NewestBefore(job: Job, input: seq<Entry>, newer: set<Entry>, beyond: set<Entry>, k: UserKey, s: nat, i: nat, e: Entry)
    requires Sorted(input) && Surrounds(job, input, newer, beyond) && NewerUnseen(newer, k, s) && FirstVisible(input, k, s, i)
    ensures Newest(Prior(input, newer, beyond), k, s, e) <==> e == input[i]
  {
    var store := Prior(input, newer, beyond);
    assert input[i] in store;
    forall f | f in store && f.key == k && f.seqno <= s
      ensures f == input[i] || f.seqno < input[i].seqno
    {
      if f !in beyond {
        assert f in Elems(input);
        var j :| 0 <= j < |input| && input[j] == f;
      }
    }
  }

  /** After it, the same version, if it survived. */
  lemma NewestAfter(job: Job, input: seq<Entry>, newer: set<Entry>, beyond: set<Entry>, k: UserKey, s: nat, i: nat, e: Entry)
    requires Setting(job, input, newer, beyond) && NewerUnseen(newer, k, s) && FirstVisible(input, k, s, i)
    requires Live(job, input, s) && Kept(job, input, i)
    ensures Newest(After(job, input, newer, beyond), k, s, e) <==> e == Emitted(job, input[i])
  {
    var store, top := After(job, input, newer, beyond), Emitted(job, input[i]);
    assert top in store;
    AboveStaysUnseen(job, input, k, s, i);
    forall f | f in store && f.key == k && f.seqno <= s
      ensures f == top || f.seqno < top.seqno
    {
      if f in beyond {
        assert RoomBelow(input, k);
      } else {
        assert f in Survivors(job, input);
        var j :| 0 <= j < |input| && Kept(job, input, j) && Emitted(job, input[j]) == f;
        if i < j {
          SurvivorsDescend(job, input, i, j);
        }
      }
    }
  }

  /** A key with a visible newer version, or with no visible input version, reads as before. */
  lemma UntouchedReads(job: Job, input: seq<Entry>, newer: set<Entry>, beyond: set<Entry>, k: UserKey, s: nat, e: Entry)
    requires Setting(job, input, newer, beyond) && Live(job, input, s)
    requires !NewerUnseen(newer, k, s) ||
             forall i :: 0 <= i < |input| && input[i].key == k ==> input[i].seqno > s
    ensures Newest(Prior(input, newer, beyond), k, s, e) <==> Newest(After(job, input, newer, beyond), k, s, e)
  {
    var b, a := Prior(input, newer, beyond), After(job, input, newer, beyond);
    forall f | (f in b || f in a) && f.key == k && f.seqno <= s && f !in newer && f !in beyond
      ensures exists g :: g in newer && g.key == k && f.seqno < g.seqno <= s
    {
      var i: nat;
      if f in b {
        assert f in Elems(input);
        i :| 0 <= i < |input| && input[i] == f;
      } else {
        assert f in Survivors(job, input);
        i :| 0 <= i < |input| && Kept(job, input, i) && Emitted(job, input[i]) == f;
        UnseenStaysUnseen(job, input, s, i);
      }
      assert input[i].key == k && !NewerUnseen(newer, k, s);
    }
  }

  /** A dropped tombstone leaves nothing of its key to read. */
  lemma ObsoleteDeletionHidesNothing(job: Job, input: seq<Entry>, newer: set<Entry>, beyond: set<Entry>, k: UserKey, s: nat, i: nat, e: Entry)
    requires Setting(job, input, newer, beyond) && NewerUnseen(newer, k, s) && FirstVisible(input, k, s, i)
    requires Live(job, input, s) && input[i].kind == Deletion && !Kept(job, input, i)
    ensures !Newest(After(job, input, newer, beyond), k, s, e)
  {
    FirstVisibleTopsStripe(job, input, k, s, i);
    AboveStaysUnseen(job, input, k, s, i);
    forall j | i < j < |input| && input[j].key == k
      ensures !Kept(job, input, j)
    {
      EarliestStripeCollapses(job, input, i, j);
    }
  }

  // ------------------------------------------------------------------
  // SingleDelete
  // ------------------------------------------------------------------

  /** e is a version of k in the store after the compaction, from input index i down. */
  ghost predicate Below(job: Job, input: seq<Entry>, beyond: set<Entry>, k: UserKey, i: nat, e: Entry) {
    || (e in beyond && e.key == k)
    || (exists j :: i <= j < |input| && input[j].key == k && Kept(job, input, j) && Emitted(job, input[j]) == e)
  }

  ghost predicate TopBelow(job: Job, input: seq<Entry>, beyond: set<Entry>, k: UserKey, i: nat, e: Entry) {
    && Below(job, input, beyond, k, i, e)
    && (forall f :: Below(job, input, beyond, k, i, f) ==> f.seqno <= e.seqno)
  }

  /** The Put that goes together with the SingleDelete before it. */
  ghost predicate Partner(job: Job, input: seq<Entry>, i: int) {
    SharesStripe(job, input, i) && input[i - 1].kind == SingleDeletion
  }

  lemma NeighboursAlternate(job: Job, input: seq<Entry>, newer: set<Entry>, beyond: set<Entry>, k: UserKey, i: nat)
    requires Sorted(input) && Surrounds(job, input, newer, beyond) && Alternates(Prior(input, newer, beyond), k)
    requires i + 1 < |input| && input[i].key == k && input[i + 1].key == k
    ensures input[i].kind != input[i + 1].kind
  {
    var store := Prior(input, newer, beyond);
    forall j | 0 <= j < |input| && input[j].key == k
      ensures input[j].seqno >= input[i].seqno || input[j].seqno <= input[i + 1].seqno
    {
      assert j < i || j == i || j == i + 1 || j > i + 1;
    }
    assert Adjacent(store, k, input[i], input[i + 1]);
  }

  /** The oldest input version and the newest beyond it are neighbours. */
  lemma LastInputAdjacent(job: Job, input: seq<Entry>, newer: set<Entry>, beyond: set<Entry>, k: UserKey, i: nat, e: Entry)
    requires Sorted(input) && Surrounds(job, input, newer, beyond)
    requires i < |input| && input[i].key == k && LastOfKey(input, i)
    requires e in beyond && e.key == k && forall f :: f in beyond && f.key == k ==> f.seqno <= e.seqno
    ensures Adjacent(Prior(input, newer, beyond), k, input[i], e)
  {
    forall g | g in Prior(input, newer, beyond) && g.key == k
      ensures g.seqno >= input[i].seqno || g.seqno <= e.seqno
    {
      if g !in newer && g !in beyond {
        assert g in Elems(input);
        var j :| 0 <= j < |input| && input[j] == g;
      }
    }
  }

  lemma LastInputAlternates(job: Job, input: seq<Entry>, newer: set<Entry>, beyond: set<Entry>, k: UserKey, i: nat, e: Entry)
    requires Sorted(input) && Surrounds(job, input, newer, beyond) && Alternates(Prior(input, newer, beyond), k)
    requires i < |input| && input[i].key == k && LastOfKey(input, i)
    requires e in beyond && e.key == k && forall f :: f in beyond && f.key == k ==> f.seqno <= e.seqno
    ensures input[i].kind != e.kind
  {
    LastInputAdjacent(job, input, newer, beyond, k, i, e);
  }

  /** Dropping SingleDelete pairs never exposes a version of the other kind: the newest survivor
      from i down has the kind of record i. */
  lemma {:induction false} TopBelowKind(job: Job, input: seq<Entry>, newer: set<Entry>, beyond: set<Entry>, k: UserKey, i: nat, e: Entry)
    requires Setting(job, input, newer, beyond) && Alternates(Prior(input, newer, beyond), k)
    requires i < |input| && input[i].key == k && !Partner(job, input, i)
    requires TopBelow(job, input, beyond, k, i, e)
    ensures e.kind == input[i].kind
    decreases |input| - i
  {
    assert input[i] in Prior(input, newer, beyond);
    if Kept(job, input, i) {
      TopIsKept(job, input, newer, beyond, k, i, e);
    } else if LastOfKey(input, i) {
      LastPutKept(job, input, newer, beyond, k, i);
      NothingBelow(job, input, newer, beyond, k, i, e);
    } else {
      DropsInPairs(job, input, newer, beyond, k, i);
      if LastOfKey(input, i + 1) {
        PairIsLast(job, input, newer, beyond, k, i, e);
      } else {
        NeighboursAlternate(job, input, newer, beyond, k, i + 1);
        SkipPair(job, input, beyond, k, i, e);
        TopBelowKind(job, input, newer, beyond, k, i + 2, e);
      }
    }
  }

  lemma TopIsKept(job: Job, input: seq<Entry>, newer: set<Entry>, beyond: set<Entry>, k: UserKey, i: nat, e: Entry)
    requires Setting(job, input, newer, beyond)
    requires i < |input| && input[i].key == k && Kept(job, input, i) && TopBelow(job, input, beyond, k, i, e)
    ensures e == Emitted(job, input[i])
  {
    var top := Emitted(job, input[i]);
    assert Below(job, input, beyond, k, i, top);
    forall j | i < j < |input| && input[j].key == k
      ensures Kept(job, input, j) ==> top.seqno > Emitted(job, input[j]).seqno
    {
      SurvivorsDescend(job, input, i, j);
    }
    assert e !in beyond;
  }

  /** In an alternating history a Put is dropped only as a partner. */
  lemma LastPutKept(job: Job, input: seq<Entry>, newer: set<Entry>, beyond: set<Entry>, k: UserKey, i: nat)
    requires Setting(job, input, newer, beyond) && Alternates(Prior(input, newer, beyond), k)
    requires i < |input| && input[i].key == k && !Partner(job, input, i) && !Kept(job, input, i)
    ensures input[i].kind == SingleDeletion
  {
    assert input[i] in Prior(input, newer, beyond);
    if i > 0 && input[i - 1].key == k {
      assert input[i - 1] in Prior(input, newer, beyond);
      NeighboursAlternate(job, input, newer, beyond, k, i - 1);
    }
  }

  lemma NothingBelow(job: Job, input: seq<Entry>, newer: set<Entry>, beyond: set<Entry>, k: UserKey, i: nat, e: Entry)
    requires Setting(job, input, newer, beyond)
    requires i < |input| && input[i].key == k && LastOfKey(input, i)
    requires input[i].kind == SingleDeletion && !Kept(job, input, i)
    ensures !Below(job, input, beyond, k, i, e)
  {
    assert forall j :: i < j < |input| ==> input[j].key > k;
  }

  lemma DropsInPairs(job: Job, input: seq<Entry>, newer: set<Entry>, beyond: set<Entry>, k: UserKey, i: nat)
    requires Setting(job, input, newer, beyond) && Alternates(Prior(input, newer, beyond), k)
    requires i < |input| && input[i].key == k && !Partner(job, input, i) && !Kept(job, input, i) && !LastOfKey(input, i)
    ensures input[i].kind == SingleDeletion && input[i + 1].kind == Value
    ensures Partner(job, input, i + 1) && !Kept(job, input, i + 1) && !Partner(job, input, i + 2)
  {
    LastPutKept(job, input, newer, beyond, k, i);
    NeighboursAlternate(job, input, newer, beyond, k, i);
    assert input[i + 1] in Prior(input, newer, beyond);
  }

  /** With no input version of k from i on, the newest below is the newest beyond. */
  lemma OnlyBeyond(job: Job, input: seq<Entry>, beyond: set<Entry>, k: UserKey, i: nat, e: Entry)
    requires Sorted(input) && 0 < i <= |input| && input[i - 1].key == k && LastOfKey(input, i - 1)
    requires TopBelow(job, input, beyond, k, i, e)
    ensures e in beyond && e.key == k && forall f :: f in beyond && f.key == k ==> f.seqno <= e.seqno
  {
    forall f | f in beyond && f.key == k ensures f.seqno <= e.seqno {
      assert Below(job, input, beyond, k, i, f);
    }
  }

  lemma PairIsLast(job: Job, input: seq<Entry>, newer: set<Entry>, beyond: set<Entry>, k: UserKey, i: nat, e: Entry)
    requires Setting(job, input, newer, beyond) && Alternates(Prior(input, newer, beyond), k)
    requires i + 1 < |input| && input[i].key == k && input[i + 1].key == k && LastOfKey(input, i + 1)
    requires !Kept(job, input, i) && !Kept(job, input, i + 1) && TopBelow(job, input, beyond, k, i, e)
    ensures e in beyond && e.kind == input[i].kind
  {
    SkipPair(job, input, beyond, k, i, e);
    OnlyBeyond(job, input, beyond, k, i + 2, e);
    LastInputAlternates(job, input, newer, beyond, k, i + 1, e);
    NeighboursAlternate(job, input, newer, beyond, k, i);
    var store := Prior(input, newer, beyond);
    assert e in store && input[i] in store && input[i + 1] in store;
  }

  lemma SkipPair(job: Job, input: seq<Entry>, beyond: set<Entry>, k: UserKey, i: nat, e: Entry)
    requires i + 1 < |input| && !Kept(job, input, i) && !Kept(job, input, i + 1)
    requires TopBelow(job, input, beyond, k, i, e)
    ensures TopBelow(job, input, beyond, k, i + 2, e)
  {
    forall f
      ensures Below(job, input, beyond, k, i, f) <==> Below(job, input, beyond, k, i + 2, f)
    {
      if Below(job, input, beyond, k, i, f) && f !in beyond {
        var j :| i <= j < |input| && input[j].key == k && Kept(job, input, j) && Emitted(job, input[j]) == f;
        assert i + 2 <= j;
      }
    }
  }

  /** What s reads after the compaction is the newest survivor below the first visible input. */
  lemma NewestIsTopBelow(job: Job, input: seq<Entry>, newer: set<Entry>, beyond: set<Entry>, k: UserKey, s: nat, i: nat, e: Entry)
    requires Setting(job, input, newer, beyond) && NewerUnseen(newer, k, s) && FirstVisible(input, k, s, i)
    requires Live(job, input, s) && Newest(After(job, input, newer, beyond), k, s, e)
    ensures TopBelow(job, input, beyond, k, i, e)
  {
    var store := After(job, input, newer, beyond);
    AboveStaysUnseen(job, input, k, s, i);
    if e !in beyond {
      assert e in Survivors(job, input);
      var j :| 0 <= j < |input| && Kept(job, input, j) && Emitted(job, input[j]) == e;
      assert i <= j;
    }
    forall f | Below(job, input, beyond, k, i, f)
      ensures f.seqno <= e.seqno
    {
      BelowIsSeen(job, input, newer, beyond, k, i, f);
    }
  }

  lemma BelowIsSeen(job: Job, input: seq<Entry>, newer: set<Entry>, beyond: set<Entry>, k: UserKey, i: nat, f: Entry)
    requires Sorted(input) && Surrounds(job, input, newer, beyond)
    requires i < |input| && input[i].key == k && Below(job, input, beyond, k, i, f)
    ensures f in After(job, input, newer, beyond) && f.key == k && f.seqno <= input[i].seqno
  {
    if f !in beyond {
      var j :| i <= j < |input| && input[j].key == k && Kept(job, input, j) && Emitted(job, input[j]) == f;
      KeptSurvives(job, input, j);
    }
  }

  lemma KeptSurvives(job: Job, input: seq<Entry>, j: nat)
    requires j < |input| && Kept(job, input, j)
    ensures Emitted(job, input[j]) in Survivors(job, input)
  {
  }

  // ------------------------------------------------------------------
  // Main results
  // ------------------------------------------------------------------

  lemma ReadsPreservedAt(job: Job, input: seq<Entry>, newer: set<Entry>, beyond: set<Entry>, k: UserKey, s: nat, i: nat, v: Bytes)
    requires Setting(job, input, newer, beyond) && Live(job, input, s)
    requires Disciplined(Prior(input, newer, beyond), k)
    requires NewerUnseen(newer, k, s) && FirstVisible(input, k, s, i)
    ensures ReadsAs(Prior(input, newer, beyond), k, s, v) <==> ReadsAs(After(job, input, newer, beyond), k, s, v)
  {
    var b, a, top := Prior(input, newer, beyond), After(job, input, newer, beyond), input[i];
    assert top in b;
    forall e ensures Newest(b, k, s, e) <==> e == top {
      NewestBefore(job, input, newer, beyond, k, s, i, e);
    }
    assert Newest(b, k, s, top);
    FirstVisibleTopsStripe(job, input, k, s, i);
    if Kept(job, input, i) {
      forall e ensures Newest(a, k, s, e) <==> e == Emitted(job, top) {
        NewestAfter(job, input, newer, beyond, k, s, i, e);
      }
      assert Newest(a, k, s, Emitted(job, top));
    } else {
      assert top.kind != Value;
      if top.kind == Deletion {
        forall e ensures !Newest(a, k, s, e) {
          ObsoleteDeletionHidesNothing(job, input, newer, beyond, k, s, i, e);
        }
      } else {
        forall e | Newest(a, k, s, e) ensures e.kind != Value {
          NewestIsTopBelow(job, input, newer, beyond, k, s, i, e);
          TopBelowKind(job, input, newer, beyond, k, i, e);
        }
      }
    }
  }

  /** A read that does not reach the input records of its key. */
  lemma UntouchedPreserved(job: Job, input: seq<Entry>, newer: set<Entry>, beyond: set<Entry>, k: UserKey, s: nat, v: Bytes)
    requires Setting(job, input, newer, beyond) && Live(job, input, s)
    requires !NewerUnseen(newer, k, s) || forall j :: 0 <= j < |input| && input[j].key == k ==> input[j].seqno > s
    ensures ReadsAs(Prior(input, newer, beyond), k, s, v) <==> ReadsAs(After(job, input, newer, beyond), k, s, v)
  {
    forall e ensures Newest(Prior(input, newer, beyond), k, s, e) <==> Newest(After(job, input, newer, beyond), k, s, e) {
      UntouchedReads(job, input, newer, beyond, k, s, e);
    }
  }

  /** Compaction preserves reads: no reader at a live read point can tell the output from the
      input, whatever surrounds it. */
  lemma CompactionPreservesReads(job: Job, input: seq<Entry>, newer: set<Entry>, beyond: set<Entry>, k: UserKey, s: nat, v: Bytes)
    requires Sorted(input) && Mergeless(input) && JobFor(job, input) && Honest(job, input)
    requires Surrounds(job, input, newer, beyond)
    requires Live(job, input, s) && Disciplined(newer + Elems(input) + beyond, k)
    ensures ReadsAs(newer + Elems(input) + beyond, k, s, v) <==>
            ReadsAs(newer + Elems(Output(job, input, 0, |input|)) + beyond, k, s, v)
  {
    OutputIsSurvivors(job, input);
    if NewerUnseen(newer, k, s) && exists j :: 0 <= j < |input| && input[j].key == k && input[j].seqno <= s {
      var j :| 0 <= j < |input| && input[j].key == k && input[j].seqno <= s;
      var i := FindFirstVisible(input, k, s, j);
      ReadsPreservedAt(job, input, newer, beyond, k, s, i, v);
    } else {
      UntouchedPreserved(job, input, newer, beyond, k, s, v);
    }
  }

  /** A disciplined key never trips the iterator's SingleDelete error. */
  lemma DisciplineAvoidsMisuse(job: Job, input: seq<Entry>, newer: set<Entry>, beyond: set<Entry>, i: nat)
    requires Sorted(input) && Surrounds(job, input, newer, beyond) && i < |input|
    requires Disciplined(newer + Elems(input) + beyond, input[i].key)
    ensures !Misused(input, i)
  {
    assert input[i] in Prior(input, newer, beyond);
    if i + 1 < |input| && input[i + 1].key == input[i].key {
      assert input[i + 1] in Prior(input, newer, beyond);
      if Alternates(Prior(input, newer, beyond), input[i].key) {
        NeighboursAlternate(job, input, newer, beyond, input[i].key, i);
      }
    }
  }

  // ------------------------------------------------------------------
  // The surviving history alternates again
  // ------------------------------------------------------------------

  /** Just below a surviving input record. */
  lemma SurvivorNeighbour(job: Job, input: seq<Entry>, newer: set<Entry>, beyond: set<Entry>, k: UserKey, j: nat, f: Entry)
    requires Setting(job, input, newer, beyond) && j < |input| && input[j].key == k && Kept(job, input, j)
    requires Adjacent(After(job, input, newer, beyond), k, Emitted(job, input[j]), f)
    ensures TopBelow(job, input, beyond, k, j + 1, f)
  {
    var e := Emitted(job, input[j]);
    BelowDescends(job, input, newer, beyond, k, j);
    forall m | 0 <= m < j && input[m].key == k && Kept(job, input, m)
      ensures Emitted(job, input[m]).seqno > e.seqno
    {
      SurvivorsDescend(job, input, m, j);
    }
    assert f !in newer;
    if f !in beyond {
      assert f in Survivors(job, input);
      var m :| 0 <= m < |input| && Kept(job, input, m) && Emitted(job, input[m]) == f;
      assert j < m;
    }
    forall g | Below(job, input, beyond, k, j + 1, g)
      ensures g.seqno <= f.seqno
    {
      assert Below(job, input, beyond, k, j, g);
      BelowIsSeen(job, input, newer, beyond, k, j, g);
    }
  }

  lemma BelowDescends(job: Job, input: seq<Entry>, newer: set<Entry>, beyond: set<Entry>, k: UserKey, j: nat)
    requires Setting(job, input, newer, beyond) && j < |input| && input[j].key == k && Kept(job, input, j)
    ensures forall g :: Below(job, input, beyond, k, j + 1, g) ==> g.seqno < Emitted(job, input[j]).seqno
  {
    forall g | Below(job, input, beyond, k, j + 1, g)
      ensures g.seqno < Emitted(job, input[j]).seqno
    {
      if g !in beyond {
        var m :| j + 1 <= m < |input| && input[m].key == k && Kept(job, input, m) && Emitted(job, input[m]) == g;
        SurvivorsDescend(job, input, j, m);
      }
    }
  }

  /** Just below a newer version, when nothing newer follows. */
  lemma NewerNeighbour(job: Job, input: seq<Entry>, newer: set<Entry>, beyond: set<Entry>, k: UserKey, i: nat, e: Entry, f: Entry)
    requires Sorted(input) && Surrounds(job, input, newer, beyond)
    requires i < |input| && input[i].key == k && (i > 0 ==> input[i - 1].key != k)
    requires e in newer && f !in newer && Adjacent(After(job, input, newer, beyond), k, e, f)
    ensures TopBelow(job, input, beyond, k, i, f)
    ensures Adjacent(Prior(input, newer, beyond), k, e, input[i])
  {
    assert forall m :: 0 <= m < |input| && input[m].key == k ==> i <= m;
    if f !in beyond {
      assert f in Survivors(job, input);
    }
    assert Below(job, input, beyond, k, i, f);
    forall g | Below(job, input, beyond, k, i, g)
      ensures g.seqno <= f.seqno
    {
      BelowIsSeen(job, input, newer, beyond, k, i, g);
    }
    BelowIsSeen(job, input, newer, beyond, k, i, f);
    forall g | g in Prior(input, newer, beyond) && g.key == k
      ensures g.seqno >= e.seqno || g.seqno <= input[i].seqno
    {
      if g in newer {
        assert g in After(job, input, newer, beyond);
      } else if g !in beyond {
        assert g in Elems(input);
      }
    }
    assert input[i] in Elems(input);
  }

  lemma AlternationSurvivesAt(job: Job, input: seq<Entry>, newer: set<Entry>, beyond: set<Entry>, k: UserKey, i: nat, e: Entry, f: Entry)
    requires Setting(job, input, newer, beyond) && Alternates(Prior(input, newer, beyond), k)
    requires i < |input| && input[i].key == k && (i > 0 ==> input[i - 1].key != k)
    requires Adjacent(After(job, input, newer, beyond), k, e, f)
    ensures e.kind != f.kind
  {
    var b := Prior(input, newer, beyond);
    if e in newer && f !in newer {
      NewerNeighbour(job, input, newer, beyond, k, i, e, f);
      TopBelowKind(job, input, newer, beyond, k, i, f);
    } else if e in newer || e in beyond {
      OutsideNeighbours(job, input, newer, beyond, k, i, e, f);
    } else {
      assert e in Survivors(job, input);
      var j :| 0 <= j < |input| && Kept(job, input, j) && Emitted(job, input[j]) == e;
      SurvivorNeighbour(job, input, newer, beyond, k, j, f);
      SurvivorAlternates(job, input, newer, beyond, k, j, f);
    }
  }

  lemma KeptIsNoPartner(job: Job, input: seq<Entry>, j: nat)
    requires j + 1 < |input| && Kept(job, input, j)
    ensures !Partner(job, input, j + 1)
  {
  }

  /** A survivor and the newest below it are of different kinds. */
  lemma SurvivorAlternates(job: Job, input: seq<Entry>, newer: set<Entry>, beyond: set<Entry>, k: UserKey, j: nat, f: Entry)
    requires Setting(job, input, newer, beyond) && Alternates(Prior(input, newer, beyond), k)
    requires j < |input| && input[j].key == k && Kept(job, input, j) && TopBelow(job, input, beyond, k, j + 1, f)
    ensures input[j].kind != f.kind
  {
    if LastOfKey(input, j) {
      OnlyBeyond(job, input, beyond, k, j + 1, f);
      LastInputAlternates(job, input, newer, beyond, k, j, f);
    } else {
      KeptIsNoPartner(job, input, j);
      NeighboursAlternate(job, input, newer, beyond, k, j);
      TopBelowKind(job, input, newer, beyond, k, j + 1, f);
    }
  }

  /** Neighbours on the same side of the input were neighbours before. */
  lemma OutsideNeighbours(job: Job, input: seq<Entry>, newer: set<Entry>, beyond: set<Entry>, k: UserKey, i: nat, e: Entry, f: Entry)
    requires Setting(job, input, newer, beyond) && Alternates(Prior(input, newer, beyond), k)
    requires i < |input| && input[i].key == k && (i > 0 ==> input[i - 1].key != k)
    requires (e in newer && f in newer) || (e !in newer && e in beyond)
    requires Adjacent(After(job, input, newer, beyond), k, e, f)
    ensures e.kind != f.kind
  {
    var b, a := Prior(input, newer, beyond), After(job, input, newer, beyond);
    if e in newer {
      forall g | g in b && g.key == k ensures g.seqno >= e.seqno || g.seqno <= f.seqno {
        if g in newer || g in beyond {
          assert g in a;
        } else {
          assert g in Elems(input);
        }
      }
      assert Adjacent(b, k, e, f);
    } else {
      forall j | 0 <= j < |input| && input[j].key == k && Kept(job, input, j)
        ensures e.seqno < Emitted(job, input[j]).seqno
      {
        BelowDescends(job, input, newer, beyond, k, j);
        assert Below(job, input, beyond, k, j + 1, e);
      }
      forall g | g in b && g.key == k ensures g.seqno >= e.seqno || g.seqno <= f.seqno {
        if g in newer || g in beyond {
          assert g in a;
        } else {
          assert g in Elems(input);
        }
      }
      assert Adjacent(b, k, e, f);
    }
  }

  /** After the compaction every disciplined key is disciplined again, so the next compaction of
      the same data may rely on it. */
  lemma DisciplineSurvives(job: Job, input: seq<Entry>, newer: set<Entry>, beyond: set<Entry>, k: UserKey)
    requires Sorted(input) && Mergeless(input) && JobFor(job, input) && Honest(job, input)
    requires Surrounds(job, input, newer, beyond) && Disciplined(newer + Elems(input) + beyond, k)
    ensures Disciplined(newer + Elems(Output(job, input, 0, |input|)) + beyond, k)
  {
    OutputIsSurvivors(job, input);
    var b, a := Prior(input, newer, beyond), After(job, input, newer, beyond);
    forall e | e in a && e.key == k
      ensures exists g :: g in b && g.key == k && g.kind == e.kind
    {
      if e !in b {
        assert e in Survivors(job, input);
        var j :| 0 <= j < |input| && Kept(job, input, j) && Emitted(job, input[j]) == e;
        assert input[j] in b;
      }
    }
    if Alternates(b, k) {
      forall e, f | Adjacent(a, k, e, f)
        ensures e.kind != f.kind
      {
        AlternationKept(job, input, newer, beyond, k, e, f);
      }
    }
  }

  lemma AlternationKept(job: Job, input: seq<Entry>, newer: set<Entry>, beyond: set<Entry>, k: UserKey, e: Entry, f: Entry)
    requires Setting(job, input, newer, beyond) && Alternates(Prior(input, newer, beyond), k)
    requires Adjacent(After(job, input, newer, beyond), k, e, f)
    ensures e.kind != f.kind
  {
    if exists j :: 0 <= j < |input| && input[j].key == k {
      var j :| 0 <= j < |input| && input[j].key == k;
      var i := FindFirstVisible(input, k, MAX_SEQUENCE_NUMBER, j);
      AlternationSurvivesAt(job, input, newer, beyond, k, i, e, f);
    } else {
      assert Adjacent(Prior(input, newer, beyond), k, e, f);
    }
  }

  // ------------------------------------------------------------------
  // Exactly when reads are preserved
  // ------------------------------------------------------------------

  ghost predicate PutDeleteOnly(input: seq<Entry>) {
    forall i :: 0 <= i < |input| ==> input[i].kind == Value || input[i].kind == Deletion
  }

  /** Every read at every live read point is preserved in every surrounding store. */
  ghost predicate AlwaysPreservesReads(job: Job, input: seq<Entry>) {
    forall newer, beyond, k, s, v ::
      (Surrounds(job, input, newer, beyond) && Live(job, input, s) && Disciplined(Prior(input, newer, beyond), k)) ==>
        (ReadsAs(Prior(input, newer, beyond), k, s, v) <==> ReadsAs(After(job, input, newer, beyond), k, s, v))
  }

  /** The run acts on record i as if nothing older existed. */
  ghost predicate Relies(job: Job, input: seq<Entry>, i: int)
    requires 0 <= i < |input|
  {
    Zeroed(job, input, i) || Obsolete(job, input, i)
  }

  /** The earliest live reader sees such a record, and nothing below it survives. */
  lemma EarliestReaderSees(job: Job, input: seq<Entry>, i: nat)
    requires Sorted(input) && JobFor(job, input) && PutDeleteOnly(input) && i < |input| && Relies(job, input, i)
    ensures FirstVisible(input, input[i].key, job.Earliest(), i) && Live(job, input, job.Earliest())
    ensures forall j :: i < j < |input| && input[j].key == input[i].key ==> !Kept(job, input, j)
  {
    assert !SharesStripe(job, input, i) && input[i].seqno <= job.Earliest();
    EarliestStripe(job, input[i].seqno);
    assert forall n: nat :: n <= job.Earliest() ==> Stripe(job, n) == job.Earliest();
    forall j | i < j < |input| && input[j].key == input[i].key
      ensures !Kept(job, input, j)
    {
      Contiguous(input, i, j, j - 1);
      EarliestStripe(job, input[j - 1].seqno);
      EarliestStripe(job, input[j].seqno);
      assert SharesStripe(job, input, j);
    }
    assert job.snapshots != [] ==> job.snapshots[0] in job.snapshots;
  }

  /** After the run that reader sees the newest of the older data. */
  lemma ExposedAfter(job: Job, input: seq<Entry>, i: nat, beyond: set<Entry>, hidden: Entry)
    requires Sorted(input) && JobFor(job, input) && PutDeleteOnly(input) && i < |input| && Relies(job, input, i)
    requires hidden in beyond && hidden.key == input[i].key && hidden.seqno < input[i].seqno
    requires forall e :: e in beyond && e.key == hidden.key ==> e.seqno <= hidden.seqno
    ensures Newest(After(job, input, {}, beyond), hidden.key, job.Earliest(), hidden)
  {
    var a, k, s := After(job, input, {}, beyond), hidden.key, job.Earliest();
    EarliestReaderSees(job, input, i);
    AboveStaysUnseen(job, input, k, s, i);
    forall e | e in a && e.key == k && e.seqno <= s ensures e.seqno <= hidden.seqno {
      if e !in beyond {
        assert e in Survivors(job, input);
        var j :| 0 <= j < |input| && Kept(job, input, j) && Emitted(job, input[j]) == e;
        assert j == i;
      }
    }
  }

  /** Before the run the earliest reader sees record i, not the value of any older data. */
  lemma ReadBefore(job: Job, input: seq<Entry>, i: nat, beyond: set<Entry>, w: Bytes)
    requires Sorted(input) && JobFor(job, input) && PutDeleteOnly(input) && i < |input| && Relies(job, input, i)
    requires Surrounds(job, input, {}, beyond) && w != input[i].value
    ensures !ReadsAs(Prior(input, {}, beyond), input[i].key, job.Earliest(), w)
  {
    var k, s := input[i].key, job.Earliest();
    EarliestReaderSees(job, input, i);
    forall e ensures Newest(Prior(input, {}, beyond), k, s, e) <==> e == input[i] {
      NewestBefore(job, input, {}, beyond, k, s, i, e);
    }
  }

  /** After it that reader sees the older data. */
  lemma ReadAfter(job: Job, input: seq<Entry>, i: nat, hidden: Entry)
    requires Sorted(input) && JobFor(job, input) && PutDeleteOnly(input) && i < |input| && Relies(job, input, i)
    requires hidden.kind == Value && hidden.key == input[i].key && hidden.seqno < input[i].seqno
    ensures ReadsAs(After(job, input, {}, {hidden}), hidden.key, job.Earliest(), hidden.value)
  {
    ExposedAfter(job, input, i, {hidden}, hidden);
  }

  /** Older data with room below the input makes a surrounding store. */
  lemma HiddenSurrounds(job: Job, input: seq<Entry>, hidden: Entry)
    requires PutDeleteOnly(input) && RoomBelow(input, hidden.key) && job.OlderPossible(hidden.key)
    requires hidden.kind == Value && hidden.seqno == 0
    ensures Surrounds(job, input, {}, {hidden}) && Disciplined(Prior(input, {}, {hidden}), hidden.key)
  {
  }

  /** A record dropped or zeroed above older data lets that data through. */
  lemma RelyingExposes(job: Job, input: seq<Entry>, i: nat)
    requires Sorted(input) && JobFor(job, input) && PutDeleteOnly(input) && i < |input| && Relies(job, input, i)
    requires RoomBelow(input, input[i].key) && job.OlderPossible(input[i].key)
    ensures !AlwaysPreservesReads(job, input)
  {
    var w: Bytes := if input[i].value == [] then [0] else [];
    var hidden := Entry(input[i].key, 0, Value, w);
    HiddenSurrounds(job, input, hidden);
    ReadBefore(job, input, i, {hidden}, w);
    EarliestReaderSees(job, input, i);
    ReadAfter(job, input, i, hidden);
  }

  /** For Put/Delete input, reads are preserved in every surrounding store exactly when no older file covers a key
      whose tombstone is dropped as obsolete or whose survivor is zeroed, unless its sequence numbers leave no room
      for older data. */
  lemma PreservesReadsIffHonest(job: Job, input: seq<Entry>)
    requires Sorted(input) && JobFor(job, input) && PutDeleteOnly(input)
    ensures AlwaysPreservesReads(job, input) <==> Honest(job, input)
  {
    if !Honest(job, input) {
      var i :| 0 <= i < |input| && Relies(job, input, i) && RoomBelow(input, input[i].key) && job.OlderPossible(input[i].key);
      RelyingExposes(job, input, i);
    } else {
      forall newer, beyond, k, s, v | Surrounds(job, input, newer, beyond) && Live(job, input, s) &&
        Disciplined(Prior(input, newer, beyond), k)
        ensures ReadsAs(Prior(input, newer, beyond), k, s, v) <==> ReadsAs(After(job, input, newer, beyond), k, s, v)
      {
        OutputIsSurvivors(job, input);
        CompactionPreservesReads(job, input, newer, beyond, k, s, v);
      }
    }
  }

  // ------------------------------------------------------------------
  // When the code's tests are right
  // ------------------------------------------------------------------

  /** The job runs over these input files. */
  ghost predicate RunsOver(job: Job, input: seq<Entry>, inputs: seq<InputFiles>, lo: UserKey, hi: UserKey) {
    && JobFor(job, input) && Sorted(input) && job.compaction.Some? && BuiltOver(job.compaction.value, inputs, lo, hi)
    && (forall i :: 0 <= i < |input| ==> HoldsKey(inputs, input[i].key))
  }

  /** The older level-0 files, which the level-style test does not look at, cover no input key. */
  ghost predicate OlderLevel0Apart(c: Compaction, input: seq<Entry>) {
    forall i, j :: 0 <= i < |input| && 0 <= j < |c.olderLevel0| ==> !c.olderLevel0[j].Covers(input[i].key)
  }

  /** A flush drops no tombstone as obsolete and zeroes nothing. */
  lemma FlushIsHonest(job: Job, input: seq<Entry>)
    requires job.compaction.None?
    ensures Honest(job, input)
  {
  }

  /** For level style the test for a tombstone looks at the files, whatever the boundary range is. */
  lemma LevelStyleDropsAreHonest(job: Job, input: seq<Entry>)
    requires job.compaction.Some? && !job.compaction.value.universal && OlderLevel0Apart(job.compaction.value, input)
    ensures DropsHonest(job, input)
  {
  }

  /** A boundary range over all input keys makes every test right, in either style. */
  lemma CoveredKeysAreHonest(job: Job, input: seq<Entry>, inputs: seq<InputFiles>, lo: UserKey, hi: UserKey)
    requires RunsOver(job, input, inputs, lo, hi) && forall i :: 0 <= i < |input| ==> lo <= input[i].key <= hi
    requires !job.compaction.value.universal ==> OlderLevel0Apart(job.compaction.value, input)
    ensures Honest(job, input)
  {
    if job.Bottommost() {
      forall i | 0 <= i < |input| ensures !job.OlderPossible(input[i].key) {
        BottommostMeansNoOlderFile(job.compaction.value, inputs, lo, hi, input[i].key);
      }
    } else if !job.compaction.value.universal {
      LevelStyleDropsAreHonest(job, input);
    }
  }

  /** Key-ordered inputs have such a range. */
  lemma KeyOrderedInputsAreHonest(job: Job, input: seq<Entry>, inputs: seq<InputFiles>, lo: UserKey, hi: UserKey)
    requires RunsOver(job, input, inputs, lo, hi) && KeyOrderedInputs(inputs)
    requires !job.compaction.value.universal ==> OlderLevel0Apart(job.compaction.value, input)
    ensures Honest(job, input)
  {
    forall i | 0 <= i < |input| ensures lo <= input[i].key <= hi {
      BoundaryCovers(inputs, lo, hi, input[i].key);
    }
    CoveredKeysAreHonest(job, input, inputs, lo, hi);
  }
}
