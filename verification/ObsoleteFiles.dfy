/** Deleting table files outside the mutex: FindObsoleteFiles fixes a plan under the mutex and PurgeObsoleteFiles
    carries it out while jobs keep creating and installing files. A finished flush need not install its own file: the
    memtable lists say who does, and that may be after the flush job has ended. */
module ObsoleteFiles {
  import opened DbFormat
  import opened MemTableList

  const NO_PENDING_OUTPUT: nat := 0xFFFF_FFFF_FFFF_FFFF

  /** One element of pending_outputs_: the job it belongs to and the next file number when it began. */
  datatype Pending = Pending(job: JobId, number: File)

  /** What FindObsoleteFiles hands to PurgeObsoleteFiles. */
  datatype Plan = Plan(candidates: set<File>, live: set<File>, minPendingOutput: nat)

  datatype State = State(
    nextFile: File,                    // file numbers are handed out in increasing order
    pending: seq<Pending>,             // pending_outputs_, oldest first
    jobs: Jobs,                        // running flushes and compactions
    lists: map<Cf, MemList>,           // immutable memtables of each column family
    disk: set<File>,                   // table files that exist
    live: set<File>,                   // files of some version
    recorded: set<File>,               // files that the version edit of a flush has ever added
    obsolete: set<File>,               // files that left the last version holding them
    plans: seq<Plan>)                  // purges under way

  datatype Step =
    | Begin(j: JobId, flush: bool)                          // CaptureCurrentFileNumberInPendingOutputs
    | NewFile(j: JobId)                                     // allocate a number and create the file
    | Install(j: JobId, added: set<File>, removed: set<File>)  // a compaction's new version
    | DropVersion(removed: set<File>)                       // an old version goes away
    | End(j: JobId)                                         // ReleaseFileNumberFromPendingOutputs
    | Find(fullScan: bool)                                  // FindObsoleteFiles
    | Purge(p: nat, f: File)                                // PurgeObsoleteFiles examines one candidate
    | Freeze(cf: Cf)                                        // a memtable becomes immutable
    | Pick(j: JobId, cf: Cf)                                // PickMemtablesToFlush
    | Complete(j: JobId, cf: Cf, f: File)                   // a flush is done: it commits or leaves that to others
    | Commit(cf: Cf)                                        // the committing thread installs the oldest result
    | StopCommit(cf: Cf)                                    // and stops at an unfinished memtable
    | Rollback(j: JobId, cf: Cf)                            // a flush failed
    | CommitFails(cf: Cf)                                   // the manifest could not be written

  ghost predicate Enabled(st: State, step: Step) {
    match step
    case Begin(j, _) => j !in st.jobs
    case NewFile(j) => j in st.jobs && st.nextFile + 1 < NO_PENDING_OUTPUT
    case Install(j, added, removed) =>
      j in st.jobs && !st.jobs[j].flush && added <= st.jobs[j].files + st.live && removed <= st.live
    case DropVersion(removed) => removed <= st.live
    case End(j) => j in st.jobs && forall cf :: cf in st.lists ==> !st.lists[cf].Busy(j)
    case Find(_) => true
    case Purge(p, f) => p < |st.plans| && f in st.plans[p].candidates
    case Freeze(cf) => cf in st.lists
    case Pick(j, cf) =>
      j in st.jobs && st.jobs[j].flush && st.jobs[j].files == {} && cf in st.lists && !st.lists[cf].Busy(j)
    case Complete(j, cf, f) => j in st.jobs && st.jobs[j].flush && f in st.jobs[j].files && cf in st.lists
    case Commit(cf) => cf in st.lists && st.lists[cf].committer.Some? && st.lists[cf].HeadFlushed()
    case StopCommit(cf) => cf in st.lists && !st.lists[cf].HeadFlushed()
    case Rollback(j, cf) => j in st.jobs && cf in st.lists
    case CommitFails(cf) => cf in st.lists && st.lists[cf].committer.Some? && st.lists[cf].HeadFlushed()
  }

  /** A failed flush or commit leaves no memtable waiting before one that another job already picked. */
  ghost predicate Orderly(st: State, step: Step)
    requires Enabled(st, step)
  {
    match step
    case Rollback(j, cf) => PickedInOrder(RolledBack(st.lists[cf].mems, j))
    case CommitFails(cf) => PickedInOrder(DoCommitFails(st.lists[cf]).mems)
    case _ => true
  }

  /** What a scan looks at. */
  ghost predicate Scanned(st: State, fullScan: bool, f: File) {
    f in st.obsolete || (fullScan && f in st.disk)
  }

  /** Every file that a scan looks at, that is in no version and that waits to be installed has a running job that began
      at or below its number. */
  ghost predicate Guarded(st: State, step: Step) {
    step.Find? ==>
      forall f :: Owed(st, f) && Scanned(st, step.fullScan, f) && f !in st.live ==> exists j :: j in st.jobs && st.jobs[j].number <= f
  }

  /** The list without the element of job j. */
  function Erase(pending: seq<Pending>, j: JobId): seq<Pending> {
    if pending == [] then []
    else if pending[0].job == j then pending[1..]
    else [pending[0]] + Erase(pending[1..], j)
  }

  function MinPendingOutput(st: State): nat {
    if st.pending == [] then NO_PENDING_OUTPUT else st.pending[0].number
  }

  /** The decision for a table file. */
  predicate Keep(plan: Plan, f: File) {
    f in plan.live || f >= plan.minPendingOutput
  }

  function WithFile(job: Job, f: File): Job { job.(files := job.files + {f}) }
  function WithoutFile(job: Job, f: File): Job { job.(files := job.files - {f}) }
  function WithList(st: State, cf: Cf, list: MemList): State { st.(lists := st.lists[cf := list]) }

  ghost function Apply(st: State, step: Step): State
    requires Enabled(st, step)
  {
    match step
    case Begin(j, flush) =>
      st.(pending := st.pending + [Pending(j, st.nextFile)], jobs := st.jobs[j := Job(st.nextFile, {}, flush)])
    case NewFile(j) =>
      st.(nextFile := st.nextFile + 1, jobs := st.jobs[j := WithFile(st.jobs[j], st.nextFile)], disk := st.disk + {st.nextFile})
    case Install(j, added, removed) =>
      var live := (st.live - removed) + added;
      st.(live := live, obsolete := st.obsolete + (st.live - live))
    case DropVersion(removed) =>
      st.(live := st.live - removed, obsolete := st.obsolete + removed)
    case End(j) =>
      st.(pending := Erase(st.pending, j), jobs := st.jobs - {j})
    case Find(fullScan) =>
      var minOut := MinPendingOutput(st);
      var gone := set f | f in st.obsolete && f < minOut;
      var plan := Plan(if fullScan then st.disk + gone else gone, st.live, minOut);
      st.(obsolete := st.obsolete - gone, plans := st.plans + [plan])
    case Purge(p, f) =>
      if Keep(st.plans[p], f) then st else st.(disk := st.disk - {f})
    case Freeze(cf) => WithList(st, cf, st.lists[cf].(mems := st.lists[cf].mems + [Frozen]))
    case Pick(j, cf) => WithList(st, cf, st.lists[cf].(mems := Picked(st.lists[cf].mems, j)))
    case Complete(j, cf, f) =>
      WithList(st.(jobs := st.jobs[j := WithoutFile(st.jobs[j], f)]), cf, DoComplete(st.lists[cf], j, f))
    case Commit(cf) =>
      var added := Added(st.lists[cf]);
      WithList(st.(live := st.live + added, recorded := st.recorded + added), cf, DoCommit(st.lists[cf]))
    case StopCommit(cf) => WithList(st, cf, st.lists[cf].(committer := None))
    case Rollback(j, cf) => WithList(st, cf, st.lists[cf].(mems := RolledBack(st.lists[cf].mems, j)))
    case CommitFails(cf) => WithList(st, cf, DoCommitFails(st.lists[cf]))
  }

  // ------------------------------------------------------------------
  // The invariant
  // ------------------------------------------------------------------

  /** f is the file of a finished flush that waits to be installed. */
  ghost predicate Owed(st: State, f: File) {
    exists cf :: cf in st.lists && st.lists[cf].Owes(f)
  }

  /** No version, no running job and no finished flush has f, and none can get it: numbers are never reused. */
  ghost predicate Dead(st: State, f: File) {
    f < st.nextFile && f !in st.live && InNoJob(st.jobs, f) && !Owed(st, f)
  }

  /** The list is sorted and holds one element per running job, with that job's number. */
  ghost predicate PendingOk(st: State) {
    && (forall a, b :: 0 <= a < b < |st.pending| ==> st.pending[a].number <= st.pending[b].number)
    && (forall a, b :: 0 <= a < b < |st.pending| ==> st.pending[a].job != st.pending[b].job)
    && (forall a :: 0 <= a < |st.pending| ==> st.pending[a].number <= st.nextFile && st.pending[a].job in st.jobs)
    && (forall j :: j in st.jobs ==> Pending(j, st.jobs[j].number) in st.pending)
  }

  /** A job's files are its own, and numbered since it began. */
  ghost predicate FilesOk(st: State) {
    && (forall j, f :: j in st.jobs && f in st.jobs[j].files ==> st.jobs[j].number <= f < st.nextFile)
    && (forall i, j, f :: i in st.jobs && j in st.jobs && f in st.jobs[i].files && f in st.jobs[j].files ==> i == j)
  }

  ghost predicate ListsOk(st: State) {
    forall cf :: cf in st.lists ==> ListOk(st.jobs, st.lists[cf])
  }

  /** What must exist: everything live, every output of an unfinished job, and every file of a finished flush that waits
      to be installed. */
  ghost predicate Safe(st: State) {
    && st.live <= st.disk && (forall j :: j in st.jobs ==> st.jobs[j].files <= st.disk)
    && (forall f :: Owed(st, f) ==> f in st.disk)
  }

  ghost predicate Inv(st: State) {
    && Safe(st) && PendingOk(st) && FilesOk(st) && st.nextFile < NO_PENDING_OUTPUT
    && (forall f :: f in st.disk || f in st.obsolete ==> f < st.nextFile)
    && PlansOk(st)
  }

  ghost predicate PlansOk(st: State) {
    forall p, f :: 0 <= p < |st.plans| && f in st.plans[p].candidates && !Keep(st.plans[p], f) ==> Dead(st, f)
  }

  ghost predicate Initial(st: State) {
    && st.pending == [] && st.jobs == map[] && st.plans == [] && st.obsolete == st.recorded == {}
    && (forall cf :: cf in st.lists ==> st.lists[cf] == MemList([], None))
    && st.live <= st.disk && st.nextFile < NO_PENDING_OUTPUT && forall f :: f in st.disk ==> f < st.nextFile
  }

  // ------------------------------------------------------------------
  // Death is final
  // ------------------------------------------------------------------

  lemma CompleteOwes(list: MemList, j: JobId, f: File, g: File)
    requires DoComplete(list, j, f).Owes(g)
    ensures g == f || list.Owes(g)
  {
    var p :| 0 <= p < |list.mems| && Completed(list.mems, j, f)[p] == Flushed(g, true);
    assert g != f ==> list.mems[p] == Flushed(g, true);
  }

  lemma CommitOwes(list: MemList, g: File)
    requires list.committer.Some? && list.HeadFlushed() && DoCommit(list).Owes(g)
    ensures list.Owes(g)
  {
    var n := PastOwnSkips(list.mems[1..], list.committer.value.own);
    var p :| 0 <= p < |DoCommit(list).mems| && DoCommit(list).mems[p] == Flushed(g, true);
    assert list.mems[1..][n..][p] == list.mems[1 + n + p];
  }

  /** Nothing but a finished flush's own file comes to be owed. */
  lemma OwesWas(st: State, step: Step, cf: Cf, f: File)
    requires Enabled(st, step) && cf in Apply(st, step).lists && Apply(st, step).lists[cf].Owes(f)
    ensures cf in st.lists && (st.lists[cf].Owes(f) || (step.Complete? && step.cf == cf && step.f == f))
  {
    var st' := Apply(st, step);
    if st'.lists[cf] == st.lists[cf] {
    } else if step.Complete? {
      CompleteOwes(st.lists[cf], step.j, step.f, f);
    } else if step.Commit? {
      CommitOwes(st.lists[cf], f);
    } else {
      var p :| 0 <= p < |st'.lists[cf].mems| && st'.lists[cf].mems[p] == Flushed(f, true);
      assert p < |st.lists[cf].mems| && st.lists[cf].mems[p] == Flushed(f, true);
    }
  }

  lemma OwedWas(st: State, step: Step, f: File)
    requires Enabled(st, step) && Owed(Apply(st, step), f)
    ensures Owed(st, f) || (step.Complete? && step.f == f)
  {
    var cf :| cf in Apply(st, step).lists && Apply(st, step).lists[cf].Owes(f);
    OwesWas(st, step, cf, f);
  }

  lemma AddedIsOwed(list: MemList, f: File)
    requires list.HeadFlushed()
    ensures f in Added(list) ==> list.Owes(f)
  {
  }

  lemma DeadStaysDead(st: State, step: Step, f: File)
    requires FilesOk(st) && Enabled(st, step) && Dead(st, f)
    ensures Dead(Apply(st, step), f)
  {
    if Owed(Apply(st, step), f) {
      OwedWas(st, step, f);
    }
    if step.Commit? {
      AddedIsOwed(st.lists[step.cf], f);
    }
  }

  /** The only ways into and out of the versions and onto and off the disk. */
  lemma StepEffects(st: State, step: Step, f: File)
    requires Enabled(st, step)
    ensures f in Apply(st, step).live <==>
            || (step.Install? && f in step.added) || (step.Commit? && st.lists[step.cf].mems[0] == Flushed(f, true))
            || (f in st.live && !((step.Install? || step.DropVersion?) && f in step.removed))
    ensures f in Apply(st, step).disk <==>
            || (step.NewFile? && f == st.nextFile)
            || (f in st.disk && !(step.Purge? && step.f == f && f !in st.plans[step.p].live && f < st.plans[step.p].minPendingOutput))
  {
  }

  // ------------------------------------------------------------------
  // Every step keeps the invariant
  // ------------------------------------------------------------------

  /** The head of the list is at or below every running job's number. */
  lemma HeadIsLeast(st: State, j: JobId)
    requires PendingOk(st) && j in st.jobs
    ensures MinPendingOutput(st) <= st.jobs[j].number
  {
    var a :| 0 <= a < |st.pending| && st.pending[a] == Pending(j, st.jobs[j].number);
  }

  /** A guarded scan takes no file that a job still writes or that waits to be installed. */
  lemma BelowHeadIsFree(st: State, fullScan: bool, f: File)
    requires PendingOk(st) && FilesOk(st) && f < MinPendingOutput(st)
    ensures InNoJob(st.jobs, f)
    ensures Guarded(st, Find(fullScan)) && Scanned(st, fullScan, f) && f !in st.live ==> !Owed(st, f)
  {
    forall j | j in st.jobs ensures f !in st.jobs[j].files && !(st.jobs[j].number <= f) {
      HeadIsLeast(st, j);
    }
  }

  lemma {:induction false} EraseIs(pending: seq<Pending>, j: JobId, x: Pending)
    requires forall a, b :: 0 <= a < b < |pending| ==> pending[a].job != pending[b].job
    requires forall a, b :: 0 <= a < b < |pending| ==> pending[a].number <= pending[b].number
    ensures forall a, b :: 0 <= a < b < |Erase(pending, j)| ==> Erase(pending, j)[a].job != Erase(pending, j)[b].job
    ensures forall a, b :: 0 <= a < b < |Erase(pending, j)| ==> Erase(pending, j)[a].number <= Erase(pending, j)[b].number
    ensures forall a :: 0 <= a < |Erase(pending, j)| ==> Erase(pending, j)[a] in pending && Erase(pending, j)[a].job != j
    ensures x in pending && x.job != j ==> x in Erase(pending, j)
  {
    if pending != [] && pending[0].job != j {
      EraseIs(pending[1..], j, x);
      var rest := Erase(pending[1..], j);
      forall a | 0 <= a < |rest| ensures rest[a].job != pending[0].job && pending[0].number <= rest[a].number {
        assert rest[a] in pending[1..];
      }
    }
  }

  lemma EndKeepsPending(st: State, j: JobId)
    requires PendingOk(st) && Enabled(st, End(j))
    ensures PendingOk(Apply(st, End(j)))
  {
    var st' := Apply(st, End(j));
    EraseIs(st.pending, j, Pending(0, 0));
    forall a | 0 <= a < |st'.pending| ensures st'.pending[a].number <= st'.nextFile && st'.pending[a].job in st'.jobs {
      assert st'.pending[a] in st.pending;
    }
    forall i | i in st'.jobs ensures Pending(i, st'.jobs[i].number) in st'.pending {
      EraseIs(st.pending, j, Pending(i, st.jobs[i].number));
    }
  }

  lemma BeginKeepsPending(st: State, j: JobId, flush: bool)
    requires PendingOk(st) && Enabled(st, Begin(j, flush))
    ensures PendingOk(Apply(st, Begin(j, flush)))
  {
    var st' := Apply(st, Begin(j, flush));
    assert st'.pending[|st.pending|] == Pending(j, st.nextFile);
    forall i | i in st.jobs ensures Pending(i, st'.jobs[i].number) in st'.pending {
      assert Pending(i, st.jobs[i].number) in st.pending;
    }
  }

  lemma StepKeepsPending(st: State, step: Step)
    requires PendingOk(st) && Enabled(st, step)
    ensures PendingOk(Apply(st, step))
  {
    match step
    case End(j) => EndKeepsPending(st, j);
    case Begin(j, flush) => BeginKeepsPending(st, j, flush);
    case _ =>
  }

  lemma StepKeepsFiles(st: State, step: Step)
    requires FilesOk(st) && PendingOk(st) && Enabled(st, step)
    ensures FilesOk(Apply(st, step))
  {
    if step.NewFile? {
      assert Pending(step.j, st.jobs[step.j].number) in st.pending;
    }
  }

  /** Job numbers are at or below the next file number. */
  lemma NumbersBelowNext(st: State)
    requires PendingOk(st)
    ensures forall j :: j in st.jobs ==> st.jobs[j].number <= st.nextFile
  {
    forall j | j in st.jobs ensures st.jobs[j].number <= st.nextFile {
      var a :| 0 <= a < |st.pending| && st.pending[a] == Pending(j, st.jobs[j].number);
    }
  }

  lemma StepKeepsSafe(st: State, step: Step)
    requires Inv(st) && Enabled(st, step)
    ensures Safe(Apply(st, step))
    ensures forall f :: f in Apply(st, step).disk || f in Apply(st, step).obsolete ==> f < Apply(st, step).nextFile
  {
    var st' := Apply(st, step);
    if step.Purge? && !Keep(st.plans[step.p], step.f) {
      assert Dead(st, step.f);
    }
    forall f | Owed(st', f) ensures f in st'.disk {
      OwedWas(st, step, f);
    }
    if step.Commit? {
      forall f | f in Added(st.lists[step.cf]) ensures f in st.disk {
        AddedIsOwed(st.lists[step.cf], f);
        assert Owed(st, f);
      }
    }
  }

  lemma StepKeepsPlans(st: State, step: Step)
    requires Inv(st) && Enabled(st, step) && Guarded(st, step)
    ensures PlansOk(Apply(st, step))
  {
    var st' := Apply(st, step);
    forall p, f | 0 <= p < |st'.plans| && f in st'.plans[p].candidates && !Keep(st'.plans[p], f) ensures Dead(st', f) {
      if p < |st.plans| {
        assert st'.plans[p] == st.plans[p];
        DeadStaysDead(st, step, f);
      } else {
        BelowHeadIsFree(st, step.fullScan, f);
      }
    }
  }

  lemma StepKeepsInv(st: State, step: Step)
    requires Inv(st) && Enabled(st, step) && Guarded(st, step)
    ensures Inv(Apply(st, step))
  {
    StepKeepsPending(st, step);
    StepKeepsFiles(st, step);
    StepKeepsSafe(st, step);
    StepKeepsPlans(st, step);
  }

  // ------------------------------------------------------------------
  // Whole runs
  // ------------------------------------------------------------------

  /** What is known of a run: nothing, that its scans are guarded, that its failures are orderly, or that its failed
      commits are of batches of one memtable. */
  datatype Runs = Any | GuardedScans | OrderlyFailures | LoneFailures

  ghost predicate Allowed(runs: Runs, st: State, step: Step)
    requires Enabled(st, step)
  {
    match runs
    case Any => true
    case GuardedScans => Guarded(st, step)
    case OrderlyFailures => Orderly(st, step)
    case LoneFailures => step.CommitFails? ==> Lone(st.lists[step.cf])
  }

  ghost predicate Leads(st: State, steps: seq<Step>, st': State, runs: Runs)
    decreases |steps|
  {
    if steps == [] then st == st'
    else Enabled(st, steps[0]) && Allowed(runs, st, steps[0]) && Leads(Apply(st, steps[0]), steps[1..], st', runs)
  }

  lemma {:induction false} LeadsOn(st: State, steps: seq<Step>, mid: State, runs: Runs, step: Step)
    requires Leads(st, steps, mid, runs) && Enabled(mid, step) && Allowed(runs, mid, step)
    ensures Leads(st, steps + [step], Apply(mid, step), runs)
    decreases |steps|
  {
    if steps == [] {
      assert ([step])[1..] == [];
    } else {
      assert (steps + [step])[1..] == steps[1..] + [step];
      LeadsOn(Apply(st, steps[0]), steps[1..], mid, runs, step);
    }
  }

  lemma InitialInv(st: State)
    requires Initial(st)
    ensures Inv(st) && ListsOk(st)
  {
  }

  lemma {:induction false} RunKeepsInv(st: State, steps: seq<Step>, st': State)
    requires Inv(st) && Leads(st, steps, st', GuardedScans)
    ensures Inv(st')
    decreases |steps|
  {
    if steps != [] {
      StepKeepsInv(st, steps[0]);
      RunKeepsInv(Apply(st, steps[0]), steps[1..], st');
    }
  }

  /** The purge of a file that the next scan would plan leaves everything that must exist. */
  ghost predicate SafelyPurged(st: State, fullScan: bool, f: File) {
    var st' := Apply(st, Find(fullScan));
    Enabled(st', Purge(|st.plans|, f)) ==> Safe(Apply(st', Purge(|st.plans|, f)))
  }

  /** A scan plans a file exactly when it looks at it, no version has it and every running job began after it was
      numbered. For the file of a finished flush this decides whether it survives until it is installed. */
  lemma ScanTakesIff(st: State, fullScan: bool, f: File)
    requires PendingOk(st) && f < NO_PENDING_OUTPUT
    ensures var plan := Apply(st, Find(fullScan)).plans[|st.plans|];
            f in plan.candidates && !Keep(plan, f) <==>
            Scanned(st, fullScan, f) && f !in st.live && forall j :: j in st.jobs ==> f < st.jobs[j].number
  {
    forall j | j in st.jobs ensures MinPendingOutput(st) <= st.jobs[j].number {
      HeadIsLeast(st, j);
    }
    if st.pending != [] {
      assert st.pending[0].job in st.jobs;
      assert Pending(st.pending[0].job, st.jobs[st.pending[0].job].number) in st.pending;
    }
  }

  /** Purging what a scan plans is safe if and only if the scan is guarded. */
  lemma PurgesSafelyIffGuarded(st: State, fullScan: bool)
    requires Inv(st)
    ensures Guarded(st, Find(fullScan)) <==> forall f :: SafelyPurged(st, fullScan, f)
  {
    var st' := Apply(st, Find(fullScan));
    if Guarded(st, Find(fullScan)) {
      StepKeepsInv(st, Find(fullScan));
      forall f | Enabled(st', Purge(|st.plans|, f)) ensures SafelyPurged(st, fullScan, f) {
        StepKeepsSafe(st', Purge(|st.plans|, f));
      }
    } else {
      var f: File :| Owed(st, f) && Scanned(st, fullScan, f) && f !in st.live && forall j :: j in st.jobs ==> f < st.jobs[j].number;
      ScanTakesIff(st, fullScan, f);
      assert Owed(Apply(st', Purge(|st.plans|, f)), f) && !SafelyPurged(st, fullScan, f);
    }
  }

  /** Purging is safe: in every interleaving whose scans are guarded, every live file, every output of an unfinished job
      and every file of a finished flush that waits to be installed still exists, whoever installs it and even if it
      becomes live between a Find and its Purge. After such a run the next scan's purges are safe if and only if that
      scan is guarded too. */
  lemma PurgingIsSafe(st: State, steps: seq<Step>, st': State, fullScan: bool)
    requires Initial(st) && Leads(st, steps, st', GuardedScans)
    ensures Safe(st')
    ensures Guarded(st', Find(fullScan)) <==> forall f :: SafelyPurged(st', fullScan, f)
  {
    InitialInv(st);
    RunKeepsInv(st, steps, st');
    PurgesSafelyIffGuarded(st', fullScan);
  }

  /** A purge deletes only files that no version, no unfinished job and no finished flush will ever have. */
  lemma PurgeDeletesOnlyDead(st: State, p: nat, f: File, steps: seq<Step>, st': State)
    requires FilesOk(st) && PendingOk(st) && PlansOk(st) && Enabled(st, Purge(p, f)) && !Keep(st.plans[p], f)
    requires Leads(Apply(st, Purge(p, f)), steps, st', Any)
    ensures Dead(st', f) && f !in st'.disk
  {
    StepKeepsPending(st, Purge(p, f));
    StepKeepsFiles(st, Purge(p, f));
    DeadStaysDead(st, Purge(p, f), f);
    DeadForever(Apply(st, Purge(p, f)), steps, st', f);
  }

  lemma {:induction false} DeadForever(st: State, steps: seq<Step>, st': State, f: File)
    requires FilesOk(st) && PendingOk(st) && Leads(st, steps, st', Any) && Dead(st, f) && f !in st.disk
    ensures Dead(st', f) && f !in st'.disk
    decreases |steps|
  {
    if steps != [] {
      StepKeepsPending(st, steps[0]);
      StepKeepsFiles(st, steps[0]);
      DeadStaysDead(st, steps[0], f);
      DeadForever(Apply(st, steps[0]), steps[1..], st', f);
    }
  }

  /** Garbage is found: once no job runs, a full scan plans the deletion of exactly the files that no version has. */
  lemma FullScanFindsGarbage(st: State, f: File)
    requires Inv(st) && st.jobs == map[]
    ensures var plan := Apply(st, Find(true)).plans[|st.plans|];
            f in plan.candidates && !Keep(plan, f) <==> (f in st.disk || f in st.obsolete) && f !in st.live
  {
    if f in st.disk || f in st.obsolete {
      ScanTakesIff(st, true, f);
    }
  }

  /** A purge under way will delete f. */
  ghost predicate Planned(st: State, p: int, f: File) {
    0 <= p < |st.plans| && f in st.plans[p].candidates && !Keep(st.plans[p], f)
  }

  /** f is in use, or known to the next scan, or about to be deleted. */
  ghost predicate Tracked(st: State, f: File) {
    f in st.live || f in st.obsolete || exists p :: Planned(st, p, f)
  }

  lemma StepKeepsTrack(st: State, step: Step, f: File)
    requires Enabled(st, step) && Tracked(st, f)
    ensures Tracked(Apply(st, step), f)
  {
    var st' := Apply(st, step);
    if p :| Planned(st, p, f) {
      assert Planned(st', p, f);
    } else if step.Find? {
      assert f in st.live || f in st'.obsolete || Planned(st', |st.plans|, f);
    }
  }

  /** A file that was ever live is not forgotten: when the last version that holds it goes, it is handed to a scan. */
  lemma {:induction false} NothingForgotten(st: State, steps: seq<Step>, st': State, f: File)
    requires Leads(st, steps, st', Any) && f in st.live
    ensures Tracked(st', f)
  {
    TrackedForever(st, steps, st', f);
  }

  lemma {:induction false} TrackedForever(st: State, steps: seq<Step>, st': State, f: File)
    requires Leads(st, steps, st', Any) && Tracked(st, f)
    ensures Tracked(st', f)
    decreases |steps|
  {
    if steps != [] {
      StepKeepsTrack(st, steps[0], f);
      TrackedForever(Apply(st, steps[0]), steps[1..], st', f);
    }
  }

  /** The life of a file that a compaction replaces: with nothing else going on, the output becomes live, the file becomes
      obsolete, the scan that follows plans its deletion, and the purge deletes it. */
  lemma ReplacedFileIsDeleted(st: State, j: JobId, f: File, steps: seq<Step>) returns (st': State)
    requires Inv(st) && st.jobs == map[] && f in st.live && st.nextFile + 1 < NO_PENDING_OUTPUT
    requires steps == [Begin(j, false), NewFile(j), Install(j, {st.nextFile}, {f}), End(j), Find(false), Purge(|st.plans|, f)]
    requires forall cf :: cf in st.lists ==> !st.lists[cf].Busy(j)
    ensures Leads(st, steps, st', Any) && f !in st'.disk && st.nextFile in st'.live && st.nextFile in st'.disk
  {
    var s1 := Apply(st, steps[0]);
    var s2 := Apply(s1, steps[1]);
    var s3 := Apply(s2, steps[2]);
    NoJobsNoPending(st);
    assert Erase(s3.pending, j) == [];
    var s4 := Apply(s3, steps[3]);
    var s5 := Apply(s4, steps[4]);
    st' := Apply(s5, steps[5]);
    LeadsSix(st, steps, s1, s2, s3, s4, s5, st');
  }

  lemma LeadsSix(st: State, steps: seq<Step>, s1: State, s2: State, s3: State, s4: State, s5: State, s6: State)
    requires |steps| == 6 && Enabled(st, steps[0]) && s1 == Apply(st, steps[0]) && Enabled(s1, steps[1]) && s2 == Apply(s1, steps[1])
    requires Enabled(s2, steps[2]) && s3 == Apply(s2, steps[2]) && Enabled(s3, steps[3]) && s4 == Apply(s3, steps[3])
    requires Enabled(s4, steps[4]) && s5 == Apply(s4, steps[4]) && Enabled(s5, steps[5]) && s6 == Apply(s5, steps[5])
    ensures Leads(st, steps, s6, Any)
  {
    assert Leads(s6, steps[6..], s6, Any);
    LeadsBack(s5, steps, 5, s6);
    LeadsBack(s4, steps, 4, s6);
    LeadsBack(s3, steps, 3, s6);
    LeadsBack(s2, steps, 2, s6);
    LeadsBack(s1, steps, 1, s6);
    LeadsBack(st, steps, 0, s6);
    assert steps[0..] == steps;
  }

  lemma LeadsBack(st: State, steps: seq<Step>, k: nat, st': State)
    requires k < |steps| && Enabled(st, steps[k]) && Leads(Apply(st, steps[k]), steps[k + 1..], st', Any)
    ensures Leads(st, steps[k..], st', Any)
  {
    assert steps[k..][1..] == steps[k + 1..];
  }

  lemma NoJobsNoPending(st: State)
    requires PendingOk(st)
    ensures st.jobs == map[] ==> st.pending == []
  {
    assert |st.pending| == 0 || st.pending[0].job in st.jobs;
  }

  /** A job that begins keeps no scan from a file that existed before. */
  lemma BeginPostponesNothing(st: State, j: JobId, flush: bool, fullScan: bool, f: File)
    requires Inv(st) && Enabled(st, Begin(j, flush)) && f < st.nextFile
    ensures var st' := Apply(st, Begin(j, flush));
            var plan, plan' := Apply(st, Find(fullScan)).plans[|st.plans|], Apply(st', Find(fullScan)).plans[|st.plans|];
            f in plan.candidates && !Keep(plan, f) <==> f in plan'.candidates && !Keep(plan', f)
  {
    BeginKeepsPending(st, j, flush);
    ScanTakesIff(st, fullScan, f);
    ScanTakesIff(Apply(st, Begin(j, flush)), fullScan, f);
  }

  // ------------------------------------------------------------------
  // Orderly failures keep scans guarded
  // ------------------------------------------------------------------

  lemma ListsGuard(st: State, step: Step)
    requires ListsOk(st)
    ensures Guarded(st, step)
  {
    forall f | Owed(st, f) ensures exists j :: j in st.jobs && st.jobs[j].number <= f {
      var cf :| cf in st.lists && st.lists[cf].Owes(f);
      OwedIsGuarded(st.jobs, st.lists[cf], f);
    }
  }

  lemma BeginGoesOn(st: State, j: JobId, flush: bool, list: MemList)
    requires PendingOk(st) && Enabled(st, Begin(j, flush))
    ensures JobsGoOn(st.jobs, Apply(st, Begin(j, flush)).jobs, st.nextFile, list)
  {
    NumbersBelowNext(st);
  }

  lemma NewFileGoesOn(st: State, j: JobId, list: MemList)
    requires PendingOk(st) && Enabled(st, NewFile(j))
    ensures JobsGoOn(st.jobs, Apply(st, NewFile(j)).jobs, st.nextFile, list)
  {
    NumbersBelowNext(st);
  }

  lemma EndGoesOn(st: State, j: JobId, cf: Cf)
    requires PendingOk(st) && Enabled(st, End(j)) && cf in st.lists
    ensures JobsGoOn(st.jobs, Apply(st, End(j)).jobs, st.nextFile, st.lists[cf])
  {
    NumbersBelowNext(st);
  }

  /** Steps of jobs leave every list in order. */
  lemma JobStepKeepsList(st: State, step: Step, cf: Cf)
    requires PendingOk(st) && Enabled(st, step) && (step.Begin? || step.NewFile? || step.End?)
    requires cf in st.lists && ListOk(st.jobs, st.lists[cf])
    ensures ListOk(Apply(st, step).jobs, st.lists[cf])
  {
    match step {
      case Begin(j, flush) => BeginGoesOn(st, j, flush, st.lists[cf]);
      case NewFile(j) => NewFileGoesOn(st, j, st.lists[cf]);
      case End(j) => EndGoesOn(st, j, cf);
    }
    JobsKeepList(st.jobs, Apply(st, step).jobs, st.nextFile, st.lists[cf]);
  }

  lemma CompleteKeepsLists(st: State, j: JobId, cf: Cf, f: File)
    requires PendingOk(st) && FilesOk(st) && ListsOk(st) && Enabled(st, Complete(j, cf, f))
    ensures ListsOk(Apply(st, Complete(j, cf, f)))
  {
    var st' := Apply(st, Complete(j, cf, f));
    NumbersBelowNext(st);
    assert ListOk(st.jobs, st.lists[cf]);
    CompleteKeepsList(st.jobs, st.lists[cf], j, f);
    forall c | c in st.lists && c != cf ensures ListOk(st'.jobs, st.lists[c]) {
      JobsKeepList(st.jobs, st'.jobs, st.nextFile, st.lists[c]);
    }
  }

  /** Steps on one list leave it in order. */
  lemma ListStepKeepsList(st: State, step: Step)
    requires ListsOk(st) && Enabled(st, step) && Orderly(st, step)
    requires step.Freeze? || step.Pick? || step.Commit? || step.StopCommit? || step.Rollback? || step.CommitFails?
    ensures ListOk(st.jobs, Apply(st, step).lists[step.cf])
  {
    var list := st.lists[step.cf];
    assert ListOk(st.jobs, list);
    match step
    case Freeze(_) => FreezeKeepsList(st.jobs, list);
    case Pick(j, _) => PickKeepsList(st.jobs, list, j);
    case Commit(_) => CommitKeepsList(st.jobs, list);
    case StopCommit(_) => StopKeepsList(st.jobs, list);
    case Rollback(j, _) => RollbackKeepsList(st.jobs, list, j);
    case CommitFails(_) =>
  }

  lemma StepKeepsLists(st: State, step: Step)
    requires PendingOk(st) && FilesOk(st) && ListsOk(st) && Enabled(st, step) && Orderly(st, step)
    ensures ListsOk(Apply(st, step))
  {
    match step
    case Begin(_, _) => forall cf | cf in st.lists { JobStepKeepsList(st, step, cf); }
    case NewFile(_) => forall cf | cf in st.lists { JobStepKeepsList(st, step, cf); }
    case End(_) => forall cf | cf in st.lists { JobStepKeepsList(st, step, cf); }
    case Complete(j, cf, f) => CompleteKeepsLists(st, j, cf, f);
    case Freeze(_) => ListStepKeepsList(st, step);
    case Pick(_, _) => ListStepKeepsList(st, step);
    case Commit(_) => ListStepKeepsList(st, step);
    case StopCommit(_) => ListStepKeepsList(st, step);
    case Rollback(_, _) => ListStepKeepsList(st, step);
    case CommitFails(_) => ListStepKeepsList(st, step);
    case _ =>
  }

  /** If failures are orderly then every scan is guarded. */
  lemma {:induction false} OrderlyRunsAreGuarded(st: State, steps: seq<Step>, st': State)
    requires Inv(st) && ListsOk(st) && Leads(st, steps, st', OrderlyFailures)
    ensures Leads(st, steps, st', GuardedScans)
    decreases |steps|
  {
    if steps != [] {
      ListsGuard(st, steps[0]);
      StepKeepsInv(st, steps[0]);
      StepKeepsLists(st, steps[0]);
      OrderlyRunsAreGuarded(Apply(st, steps[0]), steps[1..], st');
    }
  }

  lemma OrderlyRunsAreSafe(st: State, steps: seq<Step>, st': State)
    requires Initial(st) && Leads(st, steps, st', OrderlyFailures)
    ensures Safe(st') && forall fullScan, f :: SafelyPurged(st', fullScan, f)
  {
    InitialInv(st);
    OrderlyRunsAreGuarded(st, steps, st');
    PurgingIsSafe(st, steps, st', true);
    PurgingIsSafe(st, steps, st', false);
    RunKeepsLists(st, steps, st');
    ListsGuard(st', Find(true));
    ListsGuard(st', Find(false));
  }

  lemma {:induction false} RunKeepsLists(st: State, steps: seq<Step>, st': State)
    requires PendingOk(st) && FilesOk(st) && ListsOk(st) && Leads(st, steps, st', OrderlyFailures)
    ensures ListsOk(st')
    decreases |steps|
  {
    if steps != [] {
      StepKeepsPending(st, steps[0]);
      StepKeepsFiles(st, steps[0]);
      StepKeepsLists(st, steps[0]);
      RunKeepsLists(Apply(st, steps[0]), steps[1..], st');
    }
  }
}
