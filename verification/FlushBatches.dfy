/** Memtables and the files that hold their data, over every run and whatever fails: a memtable should leave its list only
    once the version edit that adds its file has been applied. One memtable of a flush carries that edit for the others. */
module FlushBatches {
  import opened DbFormat
  import opened MemTableList
  import opened ObsoleteFiles

  // ------------------------------------------------------------------
  // No edit is skipped or applied twice
  // ------------------------------------------------------------------

  ghost predicate EditsKept(st: State) {
    forall cf :: cf in st.lists ==> Prompt(st.lists[cf]) && EditsOk(st.jobs, st.nextFile, st.lists[cf])
  }

  /** The jobs got no files but new ones. */
  lemma JobsKeepEdits(jobs: Jobs, jobs': Jobs, next: File, next': File, list: MemList)
    requires EditsOk(jobs, next, list) && next <= next'
    requires forall j, f :: j in jobs' && f in jobs'[j].files ==> f >= next || (j in jobs && f in jobs[j].files)
    ensures EditsOk(jobs', next', list)
  {
    forall f: File | f < next && InNoJob(jobs, f) ensures InNoJob(jobs', f) {}
  }

  lemma JobStepKeepsEdits(st: State, step: Step, cf: Cf)
    requires Enabled(st, step) && cf in st.lists && EditsOk(st.jobs, st.nextFile, st.lists[cf])
    requires step.Begin? || step.NewFile? || step.End? || step.Complete?
    ensures EditsOk(Apply(st, step).jobs, Apply(st, step).nextFile, st.lists[cf])
  {
    JobsKeepEdits(st.jobs, Apply(st, step).jobs, st.nextFile, Apply(st, step).nextFile, st.lists[cf]);
  }

  lemma ListStepKeepsEdits(st: State, step: Step)
    requires EditsKept(st) && Enabled(st, step)
    requires step.Freeze? || step.Pick? || step.Commit? || step.StopCommit? || step.Rollback? || step.CommitFails?
    ensures EditsOk(st.jobs, st.nextFile, Apply(st, step).lists[step.cf])
  {
    var list := st.lists[step.cf];
    assert EditsOk(st.jobs, st.nextFile, list);
    match step
    case Freeze(_) => FreezeKeepsEdits(st.jobs, st.nextFile, list);
    case CommitFails(_) => CommitFailsKeepsEdits(st.jobs, st.nextFile, list);
    case StopCommit(_) =>
    case Pick(j, _) => PickKeepsEdits(st.jobs, st.nextFile, list, j);
    case Commit(_) => CommitKeepsEdits(st.jobs, st.nextFile, list);
    case Rollback(j, _) => RollbackKeepsEdits(st.jobs, st.nextFile, list, j);
  }

  lemma CompleteKeepsOwnEdits(st: State, j: JobId, cf: Cf, f: File)
    requires FilesOk(st) && EditsKept(st) && Enabled(st, Complete(j, cf, f))
    ensures var st' := Apply(st, Complete(j, cf, f)); EditsOk(st'.jobs, st'.nextFile, st'.lists[cf])
  {
    CompleteKeepsEdits(st.jobs, st.nextFile, st.lists[cf], j, f);
  }

  lemma StepKeepsPrompt(st: State, step: Step, cf: Cf)
    requires Enabled(st, step) && cf in st.lists && Prompt(st.lists[cf])
    ensures Prompt(Apply(st, step).lists[cf])
  {
  }

  lemma StepKeepsEdits(st: State, step: Step)
    requires FilesOk(st) && EditsKept(st) && Enabled(st, step)
    ensures EditsKept(Apply(st, step))
  {
    forall cf | cf in st.lists ensures Prompt(Apply(st, step).lists[cf]) {
      StepKeepsPrompt(st, step, cf);
    }
    if step.Begin? || step.NewFile? || step.End? || step.Complete? {
      forall cf | cf in st.lists { JobStepKeepsEdits(st, step, cf); }
      if step.Complete? {
        CompleteKeepsOwnEdits(st, step.j, step.cf, step.f);
      }
    } else if !step.Install? && !step.DropVersion? && !step.Find? && !step.Purge? {
      ListStepKeepsEdits(st, step);
    }
  }

  /** One list at most waits for a file to be installed, and none for one that is recorded. */
  ghost predicate Ledger(st: State) {
    && (forall c, d, f :: c in st.lists && d in st.lists && st.lists[c].Owes(f) && st.lists[d].Owes(f) ==> c == d)
    && (forall f :: f in st.recorded ==> f < st.nextFile && InNoJob(st.jobs, f) && !Owed(st, f))
  }

  lemma JobFilesNotOwed(st: State, j: JobId, f: File)
    requires EditsKept(st) && j in st.jobs && f in st.jobs[j].files
    ensures !Owed(st, f)
  {
    forall cf | cf in st.lists ensures !st.lists[cf].Owes(f) {
      assert EditsOk(st.jobs, st.nextFile, st.lists[cf]);
    }
  }

  lemma StepKeepsOwnersApart(st: State, step: Step, c: Cf, d: Cf, f: File)
    requires EditsKept(st) && Ledger(st) && Enabled(st, step)
    requires c in Apply(st, step).lists && d in Apply(st, step).lists
    requires Apply(st, step).lists[c].Owes(f) && Apply(st, step).lists[d].Owes(f)
    ensures c == d
  {
    OwesWas(st, step, c, f);
    OwesWas(st, step, d, f);
    if step.Complete? {
      JobFilesNotOwed(st, step.j, step.f);
    }
  }

  /** The file that a commit records is owed no more. */
  lemma CommittedIsNotOwed(st: State, cf: Cf, f: File)
    requires EditsKept(st) && Ledger(st) && Enabled(st, Commit(cf)) && f in Added(st.lists[cf])
    ensures !Owed(Apply(st, Commit(cf)), f)
  {
    var st' := Apply(st, Commit(cf));
    AddedIsOwed(st.lists[cf], f);
    assert OneEdit(st.lists[cf]);
    OneEditOnly(st.lists[cf], f);
    assert forall c :: c in st'.lists && c != cf ==> st'.lists[c] == st.lists[c];
  }

  lemma StepKeepsLedger(st: State, step: Step)
    requires FilesOk(st) && EditsKept(st) && Ledger(st) && Enabled(st, step)
    ensures Ledger(Apply(st, step))
  {
    var st' := Apply(st, step);
    forall c, d, f | c in st'.lists && d in st'.lists && st'.lists[c].Owes(f) && st'.lists[d].Owes(f) ensures c == d {
      StepKeepsOwnersApart(st, step, c, d, f);
    }
    forall f | f in st'.recorded ensures f < st'.nextFile && InNoJob(st'.jobs, f) && !Owed(st', f) {
      if f !in st.recorded {
        assert EditsOk(st.jobs, st.nextFile, st.lists[step.cf]);
        CommittedIsNotOwed(st, step.cf, f);
      } else if Owed(st', f) {
        OwedWas(st, step, f);
      }
    }
  }

  // ------------------------------------------------------------------
  // Every memtable's edit comes before it leaves
  // ------------------------------------------------------------------

  ghost predicate AllBacked(st: State) {
    forall cf :: cf in st.lists ==> Backed(st.recorded, st.lists[cf])
  }

  lemma MoreRecorded(recorded: set<File>, recorded': set<File>, list: MemList)
    requires Backed(recorded, list) && recorded <= recorded'
    ensures Backed(recorded', list)
  {
    forall p | 0 <= p < |list.mems| ensures MemBacked(recorded', list.mems, p) {
      assert MemBacked(recorded, list.mems, p);
    }
  }

  lemma StepKeepsListBacked(st: State, step: Step, cf: Cf)
    requires EditsKept(st) && Ledger(st) && AllBacked(st) && Enabled(st, step) && cf in st.lists
    requires step.CommitFails? ==> Lone(st.lists[step.cf])
    ensures Backed(Apply(st, step).recorded, Apply(st, step).lists[cf])
  {
    var list := st.lists[cf];
    assert Backed(st.recorded, list) && EditsOk(st.jobs, st.nextFile, list);
    MoreRecorded(st.recorded, Apply(st, step).recorded, list);
    if Apply(st, step).lists[cf] != list {
      match step
      case Freeze(_) => FreezeKeepsBacked(st.recorded, list);
      case Pick(j, _) => PickKeepsBacked(st.recorded, list, j);
      case Complete(j, _, f) => CompleteKeepsBacked(st.recorded, list, j, f);
      case Commit(_) => var _ := CommitKeepsBacked(st.jobs, st.nextFile, st.recorded, list);
      case Rollback(j, _) => RollbackKeepsBacked(st.recorded, list, j);
      case CommitFails(_) => CommitFailsKeepsIff(st, cf);
      case _ =>
    }
  }

  lemma HeadNotRecorded(st: State, cf: Cf)
    requires Ledger(st) && cf in st.lists && st.lists[cf].HeadFlushed() && st.lists[cf].mems[0].lead
    ensures st.lists[cf].mems[0].f !in st.recorded
  {
    assert st.lists[cf].Owes(st.lists[cf].mems[0].f);
    assert Owed(st, st.lists[cf].mems[0].f);
  }

  lemma CommitFailsKeepsIff(st: State, cf: Cf)
    requires EditsKept(st) && Ledger(st) && AllBacked(st) && Enabled(st, CommitFails(cf))
    ensures Backed(st.recorded, DoCommitFails(st.lists[cf])) <==> Lone(st.lists[cf])
  {
    assert EditsOk(st.jobs, st.nextFile, st.lists[cf]);
    if st.lists[cf].mems[0].lead {
      HeadNotRecorded(st, cf);
    }
    CommitFailsKeepsBackedIff(st.recorded, st.lists[cf]);
  }

  /** Files, edits and the record of added files are in order. */
  ghost predicate BooksOk(st: State) {
    PendingOk(st) && FilesOk(st) && EditsKept(st) && Ledger(st)
  }

  lemma StepKeepsBooks(st: State, step: Step)
    requires BooksOk(st) && Enabled(st, step)
    ensures BooksOk(Apply(st, step))
  {
    StepKeepsPending(st, step);
    StepKeepsFiles(st, step);
    StepKeepsEdits(st, step);
    StepKeepsLedger(st, step);
  }

  lemma InitialBooks(st: State)
    requires Initial(st)
    ensures BooksOk(st) && AllBacked(st)
  {
  }

  /** The files and the edits are in order after any run, whatever failed in it. */
  lemma {:induction false} BooksAlwaysOk(st: State, steps: seq<Step>, st': State, runs: Runs)
    requires BooksOk(st) && Leads(st, steps, st', runs)
    ensures BooksOk(st')
    decreases |steps|
  {
    if steps != [] {
      StepKeepsBooks(st, steps[0]);
      BooksAlwaysOk(Apply(st, steps[0]), steps[1..], st', runs);
    }
  }

  lemma {:induction false} RunKeepsBacked(st: State, steps: seq<Step>, st': State)
    requires BooksOk(st) && AllBacked(st) && Leads(st, steps, st', LoneFailures)
    ensures AllBacked(st')
    decreases |steps|
  {
    if steps != [] {
      forall cf | cf in st.lists {
        StepKeepsListBacked(st, steps[0], cf);
      }
      StepKeepsBooks(st, steps[0]);
      RunKeepsBacked(Apply(st, steps[0]), steps[1..], st');
    }
  }

  /** The memtables that a commit removes were flushed into files that are then recorded. */
  ghost predicate RemovesOnlyRecorded(st: State, cf: Cf)
    requires Enabled(st, Commit(cf))
  {
    var st', mems := Apply(st, Commit(cf)), st.lists[cf].mems;
    exists n :: 0 < n <= |mems| && st'.lists[cf].mems == mems[n..] && AllRecorded(st'.recorded, mems[..n])
  }

  ghost predicate AllRecorded(recorded: set<File>, mems: seq<Mem>) {
    forall p :: 0 <= p < |mems| ==> mems[p].Flushed? && mems[p].f in recorded
  }

  /** After every run in which failed commits are of batches of one memtable, no commit removes a memtable whose file no
      version edit has added. */
  lemma FlushedDataIsRecorded(st: State, steps: seq<Step>, st': State, cf: Cf)
    requires Initial(st) && Leads(st, steps, st', LoneFailures) && Enabled(st', Commit(cf))
    ensures RemovesOnlyRecorded(st', cf)
  {
    InitialBooks(st);
    BooksAlwaysOk(st, steps, st', LoneFailures);
    RunKeepsBacked(st, steps, st');
    var n := CommitKeepsBacked(st'.jobs, st'.nextFile, st'.recorded, st'.lists[cf]);
    assert AllRecorded(Apply(st', Commit(cf)).recorded, st'.lists[cf].mems[..n]);
  }

  // ------------------------------------------------------------------
  // The exact condition on failed commits
  // ------------------------------------------------------------------

  /** f was numbered, and no edit that would add it is left or was applied. */
  ghost predicate Orphan(st: State, f: File) {
    f < st.nextFile && f !in st.recorded && InNoJob(st.jobs, f) && !Owed(st, f)
  }

  lemma OrphanStays(st: State, step: Step, f: File)
    requires Enabled(st, step) && Orphan(st, f)
    ensures Orphan(Apply(st, step), f)
  {
    if Owed(Apply(st, step), f) {
      OwedWas(st, step, f);
    }
    if step.Commit? {
      AddedIsOwed(st.lists[step.cf], f);
    }
  }

  /** No edit ever adds an orphan: a memtable flushed into it can only leave with its data lost. */
  lemma {:induction false} OrphanForever(st: State, steps: seq<Step>, st': State, f: File)
    requires Leads(st, steps, st', Any) && Orphan(st, f)
    ensures Orphan(st', f)
    decreases |steps|
  {
    if steps != [] {
      OrphanStays(st, steps[0], f);
      OrphanForever(Apply(st, steps[0]), steps[1..], st', f);
    }
  }

  /** A failed commit leaves every memtable backed if and only if no other memtable of its batch waits behind it; if one
      does, it is left marked as flushed into an orphan. */
  lemma FailedCommitKeepsDataIff(st: State, cf: Cf)
    requires BooksOk(st) && AllBacked(st) && Enabled(st, CommitFails(cf))
    ensures var st', f := Apply(st, CommitFails(cf)), st.lists[cf].mems[0].f;
            && (AllBacked(st') <==> Lone(st.lists[cf]))
            && (!Lone(st.lists[cf]) ==> Orphan(st', f) && Flushed(f, false) in st'.lists[cf].mems)
  {
    CommitFailsKeepsIff(st, cf);
    if !Lone(st.lists[cf]) {
      FailedCommitOrphans(st, cf);
    }
  }

  lemma FailedCommitOrphans(st: State, cf: Cf)
    requires BooksOk(st) && Enabled(st, CommitFails(cf)) && !Lone(st.lists[cf])
    ensures var st', f := Apply(st, CommitFails(cf)), st.lists[cf].mems[0].f;
            Orphan(st', f) && Flushed(f, false) in st'.lists[cf].mems
  {
    var st', mems := Apply(st, CommitFails(cf)), st.lists[cf].mems;
    var f := mems[0].f;
    HeadNotRecorded(st, cf);
    assert EditsOk(st.jobs, st.nextFile, st.lists[cf]);
    assert st.lists[cf].Owes(f);
    OneEditOnly(st.lists[cf], f);
    assert forall c :: c in st'.lists && c != cf ==> st'.lists[c] == st.lists[c];
    var p :| 0 <= p < |mems| && mems[p] == Flushed(f, false);
    assert st'.lists[cf].mems[p] == mems[p];
  }

  lemma OrderlyFailuresAreLone(st: State, step: Step)
    requires Enabled(st, step) && Orderly(st, step)
    ensures Allowed(LoneFailures, st, step)
  {
    if step.CommitFails? {
      var mems, mems' := st.lists[step.cf].mems, DoCommitFails(st.lists[step.cf]).mems;
      assert mems'[0] == Frozen && forall p :: 1 <= p < |mems| ==> mems'[p] == mems[p] == Frozen;
    }
  }

  // ------------------------------------------------------------------
  // Files that wait to be installed
  // ------------------------------------------------------------------

  lemma OtherStepsOwe(st: State, step: Step, cf: Cf, f: File)
    requires Enabled(st, step) && !step.Commit? && cf in st.lists && st.lists[cf].Owes(f)
    requires step.CommitFails? ==> f !in Added(st.lists[step.cf])
    ensures cf in Apply(st, step).lists && Apply(st, step).lists[cf].Owes(f)
  {
    var st' := Apply(st, step);
    var p :| 0 <= p < |st.lists[cf].mems| && st.lists[cf].mems[p] == Flushed(f, true);
    assert st'.lists[cf].mems[p] == Flushed(f, true);
  }

  /** A finished flush's file waits until a commit makes it live, or that commit fails. */
  lemma OwedUntilInstalled(st: State, step: Step, f: File)
    requires EditsKept(st) && Enabled(st, step) && Owed(st, f)
    ensures var st' := Apply(st, step);
            Owed(st', f) || (step.Commit? && f in st'.live) || (step.CommitFails? && f in Added(st.lists[step.cf]))
  {
    var cf :| cf in st.lists && st.lists[cf].Owes(f);
    if step.Commit? {
      if step.cf == cf {
        CommitKeepsEdits(st.jobs, st.nextFile, st.lists[cf]);
        assert DoCommit(st.lists[cf]) == Apply(st, step).lists[cf];
      }
      assert cf in Apply(st, step).lists;
    } else if step.CommitFails? ==> f !in Added(st.lists[step.cf]) {
      OtherStepsOwe(st, step, cf, f);
    }
  }
}
