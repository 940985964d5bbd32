/** The immutable memtables of a column family: flushes finish in any order, their files are installed in the order the
    memtables were made, and the thread that installs a file need not be the one that wrote it. */
module MemTableList {
  import opened DbFormat

  type JobId = nat
  type File = nat
  type Cf = nat

  /** A running job: the next file number when it began, and its table files that are in no version and not yet handed
      to a memtable. */
  datatype Job = Job(number: File, files: set<File>, flush: bool)

  type Jobs = map<JobId, Job>

  /** A memtable waits, is being flushed by a job, or is flushed into a file. The first memtable of a flush carries the
      version edit that adds the file. */
  datatype Mem = Frozen | Flushing(j: JobId, lead: bool) | Flushed(f: File, lead: bool)

  /** The thread inside the commit loop, and the file of its own flush. */
  datatype Committer = Committer(j: JobId, own: File)

  /** Oldest memtable first. */
  datatype MemList = MemList(mems: seq<Mem>, committer: Option<Committer>) {
    predicate HeadFlushed() { mems != [] && mems[0].Flushed? }

    ghost predicate Busy(j: JobId) {
      (committer.Some? && committer.value.j == j) || exists p :: 0 <= p < |mems| && mems[p].Flushing? && mems[p].j == j
    }

    /** f waits to be installed. */
    ghost predicate Owes(f: File) {
      exists p :: 0 <= p < |mems| && mems[p] == Flushed(f, true)
    }
  }

  // ------------------------------------------------------------------
  // Operations
  // ------------------------------------------------------------------

  /** PickMemtablesToFlush takes every memtable that waits. */
  function Picked(mems: seq<Mem>, j: JobId): (r: seq<Mem>)
    ensures |r| == |mems|
    ensures forall p :: 0 <= p < |mems| ==> r[p] == if mems[p] == Frozen then Flushing(j, Frozen !in mems[..p]) else mems[p]
  {
    seq(|mems|, p requires 0 <= p < |mems| => if mems[p] == Frozen then Flushing(j, Frozen !in mems[..p]) else mems[p])
  }

  /** The memtables of job j are flushed into f. */
  function Completed(mems: seq<Mem>, j: JobId, f: File): (r: seq<Mem>)
    ensures |r| == |mems|
    ensures forall p :: 0 <= p < |mems| ==>
      r[p] == if mems[p].Flushing? && mems[p].j == j then Flushed(f, mems[p].lead) else mems[p]
  {
    seq(|mems|, p requires 0 <= p < |mems| => if mems[p].Flushing? && mems[p].j == j then Flushed(f, mems[p].lead) else mems[p])
  }

  /** The memtables of job j wait again. */
  function RolledBack(mems: seq<Mem>, j: JobId): (r: seq<Mem>)
    ensures |r| == |mems|
    ensures forall p :: 0 <= p < |mems| ==> r[p] == if mems[p].Flushing? && mems[p].j == j then Frozen else mems[p]
  {
    seq(|mems|, p requires 0 <= p < |mems| => if mems[p].Flushing? && mems[p].j == j then Frozen else mems[p])
  }

  /** Without the leading memtables that were flushed into the committing thread's own file. */
  function PastOwn(mems: seq<Mem>, own: File): seq<Mem> {
    if mems != [] && mems[0].Flushed? && mems[0].f == own then PastOwn(mems[1..], own) else mems
  }

  /** InstallMemtableFlushResults marks the memtables; its thread commits unless another does or an older memtable is
      unfinished. */
  function DoComplete(list: MemList, j: JobId, f: File): MemList {
    var mems := Completed(list.mems, j, f);
    MemList(mems, if list.committer == None && mems != [] && mems[0].Flushed? then Some(Committer(j, f)) else list.committer)
  }

  /** One round of the commit loop after the version edit of the oldest memtable is applied. */
  function DoCommit(list: MemList): MemList
    requires list.committer.Some? && list.HeadFlushed()
  {
    list.(mems := PastOwn(list.mems[1..], list.committer.value.own))
  }

  /** The file that edit adds, if any. */
  function Added(list: MemList): set<File>
    requires list.HeadFlushed()
  {
    if list.mems[0].lead then {list.mems[0].f} else {}
  }

  function DoCommitFails(list: MemList): MemList
    requires list.HeadFlushed()
  {
    MemList(list.mems[0 := Frozen], None)
  }

  /** A pick leaves no memtable waiting, and all that waited go to one job, the oldest of them leading. */
  lemma PickTakesAll(mems: seq<Mem>, j: JobId)
    ensures Frozen !in Picked(mems, j)
    ensures forall p :: 0 <= p < |mems| && mems[p] == Frozen ==> Picked(mems, j)[p].Flushing? && Picked(mems, j)[p].j == j
    ensures forall p :: 0 <= p < |mems| && mems[p] == Frozen && Frozen !in mems[..p] ==> Picked(mems, j)[p] == Flushing(j, true)
    ensures forall p :: 0 <= p < |mems| && mems[p] != Frozen ==> Picked(mems, j)[p] == mems[p]
  {
  }

  /** When a flush is over none of its memtables is left with it: all are flushed into its file, or all wait again. */
  lemma FlushIsOver(mems: seq<Mem>, j: JobId, f: File, p: int)
    requires 0 <= p < |mems|
    ensures !(Completed(mems, j, f)[p].Flushing? && Completed(mems, j, f)[p].j == j)
    ensures !(RolledBack(mems, j)[p].Flushing? && RolledBack(mems, j)[p].j == j)
    ensures mems[p].Flushing? && mems[p].j == j ==> Completed(mems, j, f)[p] == Flushed(f, mems[p].lead) && RolledBack(mems, j)[p] == Frozen
    ensures !(mems[p].Flushing? && mems[p].j == j) ==> Completed(mems, j, f)[p] == RolledBack(mems, j)[p] == mems[p]
  {
  }

  // ------------------------------------------------------------------
  // The order of file numbers
  // ------------------------------------------------------------------

  /** m's file, there already or still to come, has at least number n. */
  ghost predicate AtLeast(jobs: Jobs, n: File, m: Mem) {
    match m
    case Frozen => true
    case Flushing(j, _) => j in jobs && forall f :: f in jobs[j].files ==> n <= f
    case Flushed(f, lead) => lead ==> n <= f
  }

  /** No memtable waits before one that was picked. */
  ghost predicate PickedInOrder(mems: seq<Mem>) {
    forall q, p :: 0 <= q < p < |mems| && mems[q] == Frozen ==> mems[p] == Frozen
  }

  /** A memtable being flushed was picked before younger ones' files were numbered, and so was what the committing
      thread flushed. */
  ghost predicate Numbered(jobs: Jobs, list: MemList) {
    && (forall p :: 0 <= p < |list.mems| && list.mems[p].Flushing? ==> list.mems[p].j in jobs)
    && (forall q, p :: 0 <= q < p < |list.mems| && list.mems[q].Flushing? && list.mems[q].j in jobs ==>
          AtLeast(jobs, jobs[list.mems[q].j].number, list.mems[p]))
    && (list.committer.Some? ==> list.committer.value.j in jobs)
    && (list.committer.Some? && list.committer.value.j in jobs ==>
          forall p :: 0 <= p < |list.mems| ==> AtLeast(jobs, jobs[list.committer.value.j].number, list.mems[p]))
  }

  /** Whoever could commit does. */
  ghost predicate Prompt(list: MemList) {
    list.committer == None ==> !list.HeadFlushed()
  }

  ghost predicate ListOk(jobs: Jobs, list: MemList) {
    PickedInOrder(list.mems) && Numbered(jobs, list) && Prompt(list)
  }

  /** A file that waits to be installed is at or above the number of some running job, so no scan takes it. */
  lemma OwedIsGuarded(jobs: Jobs, list: MemList, f: File)
    requires ListOk(jobs, list) && list.Owes(f)
    ensures exists j :: j in jobs && jobs[j].number <= f
  {
    var p :| 0 <= p < |list.mems| && list.mems[p] == Flushed(f, true);
    assert AtLeast(jobs, f, list.mems[p]);
    if list.committer.Some? {
      var c := list.committer.value.j;
      assert AtLeast(jobs, jobs[c].number, list.mems[p]);
    } else {
      assert p > 0 && list.mems[0].Flushing?;
      assert AtLeast(jobs, jobs[list.mems[0].j].number, list.mems[p]);
    }
  }

  // ------------------------------------------------------------------
  // Jobs change
  // ------------------------------------------------------------------

  /** Jobs still running have the numbers they had, and their new files, if any, are above everyone's number. */
  ghost predicate JobsGoOn(jobs: Jobs, jobs': Jobs, next: File, list: MemList) {
    && (forall j :: j in jobs && list.Busy(j) ==> j in jobs' && jobs'[j].number == jobs[j].number)
    && (forall j, f :: j in jobs && j in jobs' && f in jobs'[j].files && f !in jobs[j].files ==> f >= next)
    && (forall j :: j in jobs ==> jobs[j].number <= next)
  }

  lemma StayAtLeast(jobs: Jobs, jobs': Jobs, next: File, list: MemList, n: File, p: int)
    requires JobsGoOn(jobs, jobs', next, list) && 0 <= p < |list.mems| && n <= next && AtLeast(jobs, n, list.mems[p])
    ensures AtLeast(jobs', n, list.mems[p])
  {
    if list.mems[p].Flushing? {
      assert list.Busy(list.mems[p].j);
    }
  }

  lemma JobsKeepList(jobs: Jobs, jobs': Jobs, next: File, list: MemList)
    requires ListOk(jobs, list) && JobsGoOn(jobs, jobs', next, list)
    ensures ListOk(jobs', list)
  {
    forall p | 0 <= p < |list.mems| && list.mems[p].Flushing?
      ensures list.mems[p].j in jobs' && jobs'[list.mems[p].j].number == jobs[list.mems[p].j].number
    {
      assert list.Busy(list.mems[p].j);
    }
    forall q, p | 0 <= q < p < |list.mems| && list.mems[q].Flushing? && list.mems[q].j in jobs'
      ensures AtLeast(jobs', jobs'[list.mems[q].j].number, list.mems[p])
    {
      StayAtLeast(jobs, jobs', next, list, jobs[list.mems[q].j].number, p);
    }
    if list.committer.Some? {
      assert list.Busy(list.committer.value.j);
      forall p | 0 <= p < |list.mems| ensures AtLeast(jobs', jobs'[list.committer.value.j].number, list.mems[p]) {
        StayAtLeast(jobs, jobs', next, list, jobs[list.committer.value.j].number, p);
      }
    }
  }

  // ------------------------------------------------------------------
  // The list changes
  // ------------------------------------------------------------------

  lemma FreezeKeepsList(jobs: Jobs, list: MemList)
    requires ListOk(jobs, list)
    ensures ListOk(jobs, list.(mems := list.mems + [Frozen]))
  {
  }

  lemma PickKeepsList(jobs: Jobs, list: MemList, j: JobId)
    requires ListOk(jobs, list) && j in jobs && jobs[j].files == {}
    ensures ListOk(jobs, list.(mems := Picked(list.mems, j)))
  {
    var mems, list' := list.mems, list.(mems := Picked(list.mems, j));
    forall p, n | 0 <= p < |mems| && AtLeast(jobs, n, mems[p]) ensures AtLeast(jobs, n, list'.mems[p]) {}
    forall q, p | 0 <= q < p < |mems| && list'.mems[q].Flushing?
      ensures AtLeast(jobs, jobs[list'.mems[q].j].number, list'.mems[p])
    {
      if mems[q] == Frozen {
        assert mems[p] == Frozen;
      } else {
        assert AtLeast(jobs, jobs[mems[q].j].number, mems[p]);
      }
    }
  }

  lemma CompleteKeepsList(jobs: Jobs, list: MemList, j: JobId, f: File)
    requires ListOk(jobs, list) && j in jobs && f in jobs[j].files && forall g :: g in jobs[j].files ==> jobs[j].number <= g
    ensures ListOk(jobs[j := jobs[j].(files := jobs[j].files - {f})], DoComplete(list, j, f))
  {
    var jobs', list' := jobs[j := jobs[j].(files := jobs[j].files - {f})], DoComplete(list, j, f);
    var mems, mems' := list.mems, list'.mems;
    forall p, n | 0 <= p < |mems| && AtLeast(jobs, n, mems[p]) ensures AtLeast(jobs', n, mems'[p]) {}
    forall q, p | 0 <= q < p < |mems| && mems'[q].Flushing? ensures AtLeast(jobs', jobs'[mems'[q].j].number, mems'[p]) {
      assert AtLeast(jobs, jobs[mems[q].j].number, mems[p]);
    }
    if list'.committer.Some? && list.committer == None {
      assert mems[0].Flushing? && mems[0].j == j;
      forall p | 0 <= p < |mems| ensures AtLeast(jobs', jobs'[j].number, mems'[p]) {
        assert p > 0 ==> AtLeast(jobs, jobs[j].number, mems[p]);
      }
    } else if list'.committer.Some? {
      forall p | 0 <= p < |mems| ensures AtLeast(jobs', jobs'[list.committer.value.j].number, mems'[p]) {
        assert AtLeast(jobs, jobs[list.committer.value.j].number, mems[p]);
      }
    }
  }

  /** What a round of the commit loop removes besides the oldest memtable was flushed into the thread's own file. */
  lemma {:induction false} PastOwnSkips(mems: seq<Mem>, own: File) returns (n: nat)
    ensures n <= |mems| && PastOwn(mems, own) == mems[n..]
    ensures forall p :: 0 <= p < n ==> mems[p].Flushed? && mems[p].f == own
    ensures n < |mems| ==> !(mems[n].Flushed? && mems[n].f == own)
  {
    n := 0;
    if mems != [] && mems[0].Flushed? && mems[0].f == own {
      var m := PastOwnSkips(mems[1..], own);
      n := m + 1;
      assert mems[1..][m..] == mems[n..];
      forall p | 0 <= p < n ensures mems[p].Flushed? && mems[p].f == own {
        assert p > 0 ==> mems[p] == mems[1..][p - 1];
      }
      assert n < |mems| ==> mems[n] == mems[1..][m];
    }
  }

  lemma SuffixKeepsList(jobs: Jobs, list: MemList, n: nat)
    requires ListOk(jobs, list) && n <= |list.mems| && list.committer.Some?
    ensures ListOk(jobs, list.(mems := list.mems[n..]))
  {
    var mems' := list.mems[n..];
    forall q, p | 0 <= q < p < |mems'| && mems'[q].Flushing? ensures AtLeast(jobs, jobs[mems'[q].j].number, mems'[p]) {
      assert AtLeast(jobs, jobs[list.mems[n + q].j].number, list.mems[n + p]);
    }
  }

  lemma CommitKeepsList(jobs: Jobs, list: MemList)
    requires ListOk(jobs, list) && list.committer.Some? && list.HeadFlushed()
    ensures ListOk(jobs, DoCommit(list))
  {
    var n := PastOwnSkips(list.mems[1..], list.committer.value.own);
    assert list.mems[1..][n..] == list.mems[n + 1..];
    SuffixKeepsList(jobs, list, n + 1);
  }

  lemma StopKeepsList(jobs: Jobs, list: MemList)
    requires ListOk(jobs, list) && !list.HeadFlushed()
    ensures ListOk(jobs, list.(committer := None))
  {
  }

  /** A failed flush does no harm if no younger memtable was picked by another job. */
  lemma RollbackKeepsList(jobs: Jobs, list: MemList, j: JobId)
    requires ListOk(jobs, list) && PickedInOrder(RolledBack(list.mems, j))
    ensures ListOk(jobs, list.(mems := RolledBack(list.mems, j)))
  {
    var mems, mems' := list.mems, RolledBack(list.mems, j);
    forall q, p | 0 <= q < p < |mems| && mems'[q].Flushing? ensures AtLeast(jobs, jobs[mems'[q].j].number, mems'[p]) {
      assert AtLeast(jobs, jobs[mems[q].j].number, mems[p]);
    }
  }

  // ------------------------------------------------------------------
  // No version edit is skipped
  // ------------------------------------------------------------------

  ghost predicate InNoJob(jobs: Jobs, f: File) {
    forall j :: j in jobs ==> f !in jobs[j].files
  }

  ghost predicate SameFlush(m: Mem, n: Mem) {
    m.Flushing? && n.Flushing? && m.j == n.j
  }

  /** One edit adds a file. */
  ghost predicate OneEdit(list: MemList) {
    forall q, p :: 0 <= q < p < |list.mems| && list.mems[q].Flushed? && list.mems[q].lead ==> list.mems[p] != list.mems[q]
  }

  /** One memtable of a flush carries the edit; flushed files belong to no job; and behind the oldest memtable no edit
      of the committing thread's own file is left. */
  ghost predicate EditsOk(jobs: Jobs, next: File, list: MemList) {
    && (forall q, p :: 0 <= q < p < |list.mems| && SameFlush(list.mems[q], list.mems[p]) ==> !list.mems[p].lead)
    && (forall p :: 0 <= p < |list.mems| && list.mems[p].Flushed? ==> list.mems[p].f < next && InNoJob(jobs, list.mems[p].f))
    && (list.committer.Some? ==> list.committer.value.own < next && InNoJob(jobs, list.committer.value.own))
    && (list.committer.Some? ==>
          forall p :: 1 <= p < |list.mems| ==> list.mems[p] != Flushed(list.committer.value.own, true))
    && OneEdit(list)
  }

  lemma PickKeepsEdits(jobs: Jobs, next: File, list: MemList, j: JobId)
    requires EditsOk(jobs, next, list) && !list.Busy(j)
    ensures EditsOk(jobs, next, list.(mems := Picked(list.mems, j)))
  {
    var mems, mems' := list.mems, Picked(list.mems, j);
    forall q, p | 0 <= q < p < |mems| && SameFlush(mems'[q], mems'[p]) ensures !mems'[p].lead {
      if mems'[p].j == j {
        assert mems[q] == Frozen && mems[p] == Frozen;
        assert mems[..p][q] == Frozen;
      } else {
        assert SameFlush(mems[q], mems[p]);
      }
    }
  }

  lemma RollbackKeepsEdits(jobs: Jobs, next: File, list: MemList, j: JobId)
    requires EditsOk(jobs, next, list)
    ensures EditsOk(jobs, next, list.(mems := RolledBack(list.mems, j)))
  {
    var mems, mems' := list.mems, RolledBack(list.mems, j);
    forall q, p | 0 <= q < p < |mems| && SameFlush(mems'[q], mems'[p]) ensures !mems'[p].lead {
      assert SameFlush(mems[q], mems[p]);
    }
  }

  lemma CompleteKeepsEdits(jobs: Jobs, next: File, list: MemList, j: JobId, f: File)
    requires EditsOk(jobs, next, list) && Prompt(list) && j in jobs && f in jobs[j].files && f < next
    requires forall i :: i in jobs && i != j ==> f !in jobs[i].files
    ensures EditsOk(jobs[j := jobs[j].(files := jobs[j].files - {f})], next, DoComplete(list, j, f))
  {
    var mems, mems' := list.mems, Completed(list.mems, j, f);
    forall q, p | 0 <= q < p < |mems| && SameFlush(mems'[q], mems'[p]) ensures !mems'[p].lead {
      assert SameFlush(mems[q], mems[p]);
    }
    assert forall p :: 1 <= p < |mems| && mems[0].Flushing? && mems[0].j == j && mems[p].Flushing? && mems[p].j == j ==>
        SameFlush(mems[0], mems[p]);
  }

  lemma CommitKeepsEdits(jobs: Jobs, next: File, list: MemList)
    requires EditsOk(jobs, next, list) && list.committer.Some? && list.HeadFlushed()
    ensures EditsOk(jobs, next, DoCommit(list))
    ensures forall f :: list.Owes(f) ==> f in Added(list) || DoCommit(list).Owes(f)
  {
    var own := list.committer.value.own;
    var n := PastOwnSkips(list.mems[1..], own);
    var mems' := DoCommit(list).mems;
    assert list.mems[1..][n..] == list.mems[n + 1..] == mems';
    assert forall p :: 0 <= p < n ==> list.mems[1..][p] == list.mems[p + 1];
    forall q, p | 0 <= q < p < |mems'| && SameFlush(mems'[q], mems'[p]) ensures !mems'[p].lead {
      assert SameFlush(list.mems[n + 1 + q], list.mems[n + 1 + p]);
    }
    forall f | list.Owes(f) ensures f in Added(list) || DoCommit(list).Owes(f) {
      var p :| 0 <= p < |list.mems| && list.mems[p] == Flushed(f, true);
      if p > 0 {
        assert p - 1 >= n;
        assert mems'[p - 1 - n] == Flushed(f, true);
      }
    }
  }

  /** Neither a commit nor its failure leaves another edit for the same file. */
  lemma OneEditOnly(list: MemList, f: File)
    requires OneEdit(list) && list.committer.Some? && list.HeadFlushed() && f in Added(list)
    ensures !DoCommit(list).Owes(f) && !DoCommitFails(list).Owes(f)
  {
    var n := PastOwnSkips(list.mems[1..], list.committer.value.own);
    assert list.mems[1..][n..] == list.mems[n + 1..];
    assert list.mems[0] == Flushed(f, true);
  }

  lemma FreezeKeepsEdits(jobs: Jobs, next: File, list: MemList)
    requires EditsOk(jobs, next, list)
    ensures EditsOk(jobs, next, list.(mems := list.mems + [Frozen]))
  {
  }

  lemma CommitFailsKeepsEdits(jobs: Jobs, next: File, list: MemList)
    requires EditsOk(jobs, next, list) && list.HeadFlushed()
    ensures EditsOk(jobs, next, DoCommitFails(list))
  {
    var mems' := DoCommitFails(list).mems;
    forall q, p | 0 <= q < p < |mems'| && SameFlush(mems'[q], mems'[p]) ensures !mems'[p].lead {
      assert SameFlush(list.mems[q], list.mems[p]);
    }
  }

  // ------------------------------------------------------------------
  // Every memtable of a batch
  // ------------------------------------------------------------------

  ghost predicate Before(mems: seq<Mem>, m: Mem, p: int) {
    exists q :: 0 <= q < p && q < |mems| && mems[q] == m
  }

  /** The edit that adds the file of the memtable at p is at or before it, or was applied: its file is recorded. */
  ghost predicate MemBacked(recorded: set<File>, mems: seq<Mem>, p: int)
    requires 0 <= p < |mems|
  {
    match mems[p]
    case Frozen => true
    case Flushing(j, lead) => lead || Before(mems, Flushing(j, true), p)
    case Flushed(f, lead) => lead || f in recorded || Before(mems, Flushed(f, true), p)
  }

  ghost predicate Backed(recorded: set<File>, list: MemList) {
    forall p :: 0 <= p < |list.mems| ==> MemBacked(recorded, list.mems, p)
  }

  /** The oldest memtable carries no edit that another memtable of its batch depends on. */
  ghost predicate Lone(list: MemList)
    requires list.HeadFlushed()
  {
    list.mems[0].lead ==> Flushed(list.mems[0].f, false) !in list.mems
  }

  lemma FirstFrozen(mems: seq<Mem>, p: nat) returns (q: nat)
    requires p < |mems| && Frozen in mems[..p]
    ensures q < p && mems[q] == Frozen && Frozen !in mems[..q]
  {
    q := 0;
    while mems[q] != Frozen
      invariant q < p && Frozen !in mems[..q] && exists i :: q <= i < p && mems[i] == Frozen
      decreases p - q
    {
      assert mems[..q + 1] == mems[..q] + [mems[q]];
      q := q + 1;
    }
  }

  lemma PickKeepsBacked(recorded: set<File>, list: MemList, j: JobId)
    requires Backed(recorded, list)
    ensures Backed(recorded, list.(mems := Picked(list.mems, j)))
  {
    var mems, mems' := list.mems, Picked(list.mems, j);
    forall p | 0 <= p < |mems| ensures MemBacked(recorded, mems', p) {
      assert MemBacked(recorded, mems, p);
      if mems[p] == Frozen && Frozen in mems[..p] {
        var q := FirstFrozen(mems, p);
        assert mems'[q] == Flushing(j, true);
      }
      KeptBefore(mems, mems', p);
    }
  }

  /** What is not frozen stays before p as long as only frozen memtables change. */
  lemma KeptBefore(mems: seq<Mem>, mems': seq<Mem>, p: int)
    requires |mems| == |mems'| && 0 <= p < |mems| && forall q :: 0 <= q < |mems| && mems[q] != Frozen ==> mems'[q] == mems[q]
    ensures forall m :: m != Frozen && Before(mems, m, p) ==> Before(mems', m, p)
  {
    forall m | m != Frozen && Before(mems, m, p) ensures Before(mems', m, p) {
      var q :| 0 <= q < p && mems[q] == m;
      assert mems'[q] == m;
    }
  }

  lemma FreezeKeepsBacked(recorded: set<File>, list: MemList)
    requires Backed(recorded, list)
    ensures Backed(recorded, list.(mems := list.mems + [Frozen]))
  {
    var mems' := list.mems + [Frozen];
    forall p | 0 <= p < |list.mems| ensures MemBacked(recorded, mems', p) {
      assert MemBacked(recorded, list.mems, p);
      KeptBefore(list.mems, mems'[..|list.mems|], p);
      assert forall m :: Before(mems'[..|list.mems|], m, p) ==> Before(mems', m, p);
    }
  }

  lemma CompleteKeepsBacked(recorded: set<File>, list: MemList, j: JobId, f: File)
    requires Backed(recorded, list)
    ensures Backed(recorded, DoComplete(list, j, f))
  {
    var mems, mems' := list.mems, Completed(list.mems, j, f);
    forall p | 0 <= p < |mems| ensures MemBacked(recorded, mems', p) {
      assert MemBacked(recorded, mems, p);
      if mems[p].Flushing? && !mems[p].lead {
        var q :| 0 <= q < p && mems[q] == Flushing(mems[p].j, true);
        assert mems'[q] == if mems[p].j == j then Flushed(f, true) else mems[q];
      } else if mems[p].Flushed? && Before(mems, Flushed(mems[p].f, true), p) {
        var q :| 0 <= q < p && mems[q] == Flushed(mems[p].f, true);
        assert mems'[q] == mems[q];
      }
    }
  }

  lemma RollbackKeepsBacked(recorded: set<File>, list: MemList, j: JobId)
    requires Backed(recorded, list)
    ensures Backed(recorded, list.(mems := RolledBack(list.mems, j)))
  {
    var mems, mems' := list.mems, RolledBack(list.mems, j);
    forall p | 0 <= p < |mems| ensures MemBacked(recorded, mems', p) {
      assert MemBacked(recorded, mems, p);
      if mems'[p].Flushing? && !mems[p].lead {
        var q :| 0 <= q < p && mems[q] == Flushing(mems[p].j, true);
        assert mems'[q] == mems[q];
      } else if mems[p].Flushed? && Before(mems, Flushed(mems[p].f, true), p) {
        var q :| 0 <= q < p && mems[q] == Flushed(mems[p].f, true);
        assert mems'[q] == mems[q];
      }
    }
  }

  /** A round of the commit loop removes memtables whose files are recorded, and the rest stay backed. */
  lemma CommitKeepsBacked(jobs: Jobs, next: File, recorded: set<File>, list: MemList) returns (n: nat)
    requires EditsOk(jobs, next, list) && Backed(recorded, list) && list.committer.Some? && list.HeadFlushed()
    ensures 0 < n <= |list.mems| && DoCommit(list).mems == list.mems[n..]
    ensures forall p :: 0 <= p < n ==> list.mems[p].Flushed? && list.mems[p].f in recorded + Added(list)
    ensures Backed(recorded + Added(list), DoCommit(list))
  {
    var mems, own := list.mems, list.committer.value.own;
    var m := PastOwnSkips(mems[1..], own);
    n := m + 1;
    assert mems[1..][m..] == mems[n..];
    forall p | 0 <= p < n ensures mems[p].Flushed? && mems[p].f in recorded + Added(list) {
      assert MemBacked(recorded, mems, p);
      assert p > 0 ==> mems[p] == mems[1..][p - 1];
    }
    forall p | 0 <= p < |mems| - n ensures MemBacked(recorded + Added(list), mems[n..], p) {
      assert MemBacked(recorded, mems, p + n);
      SuffixBacked(recorded, recorded + Added(list), mems, n, p);
    }
  }

  /** The memtables before n leave, flushed into files that are then recorded. */
  lemma SuffixBacked(recorded: set<File>, recorded': set<File>, mems: seq<Mem>, n: nat, p: nat)
    requires p + n < |mems| && MemBacked(recorded, mems, p + n) && recorded <= recorded'
    requires forall q :: 0 <= q < n ==> mems[q].Flushed? && mems[q].f in recorded'
    ensures MemBacked(recorded', mems[n..], p)
  {
    forall m | Before(mems, m, p + n) ensures Before(mems[n..], m, p) || (m.Flushed? && m.f in recorded') {
      var q :| 0 <= q < p + n && mems[q] == m;
      assert q >= n ==> mems[n..][q - n] == m;
    }
  }

  /** A failed commit keeps every memtable backed if and only if its batch has no other memtable. */
  lemma CommitFailsKeepsBackedIff(recorded: set<File>, list: MemList)
    requires Backed(recorded, list) && OneEdit(list) && list.HeadFlushed() && (list.mems[0].lead ==> list.mems[0].f !in recorded)
    ensures Backed(recorded, DoCommitFails(list)) <==> Lone(list)
  {
    var mems, mems' := list.mems, DoCommitFails(list).mems;
    assert forall q :: 1 <= q < |mems| ==> mems'[q] == mems[q];
    if Lone(list) {
      forall p | 1 <= p < |mems| ensures MemBacked(recorded, mems', p) {
        assert MemBacked(recorded, mems, p);
        StillBefore(mems, mems', p);
      }
    } else {
      var p :| 0 <= p < |mems| && mems[p] == Flushed(mems[0].f, false);
      assert !MemBacked(recorded, mems', p);
    }
  }

  lemma StillBefore(mems: seq<Mem>, mems': seq<Mem>, p: int)
    requires |mems| == |mems'| && 0 <= p < |mems| && forall q :: 1 <= q < |mems| ==> mems'[q] == mems[q]
    ensures forall m :: Before(mems, m, p) ==> m == mems[0] || Before(mems', m, p)
  {
    forall m | Before(mems, m, p) && m != mems[0] ensures Before(mems', m, p) {
      var q :| 0 <= q < p && mems[q] == m;
      assert mems'[q] == m;
    }
  }
}
