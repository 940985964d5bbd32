/** Scheduling of background flushes and compactions: queues of column families, counters of work not
    yet handed to the thread pool, and manual compactions that wait for automatic ones. Every method is
    one critical section of the DB mutex, so any interleaving of threads is a sequence of calls. */
module BackgroundWork {
  import opened DbFormat

  type Cf = nat
  type Caller = nat

  /** The registered manual compaction: its RunManualCompaction call and in_progress. */
  datatype Manual = Manual(caller: Caller, inProgress: bool)

  ghost predicate NoDuplicates(q: seq<Cf>) {
    forall i, j :: 0 <= i < j < |q| ==> q[i] != q[j]
  }

  /** The flags are true exactly for the queue's members. */
  ghost predicate Flags(q: seq<Cf>, pending: set<Cf>) {
    forall cf :: cf in pending <==> cf in q
  }

  class Scheduler {
    const maxFlushes: nat
    const maxCompactions: nat
    var gateOpen: bool                       // opened successfully and gate not closed
    var flushQueue: seq<Cf>
    var compactionQueue: seq<Cf>
    var pendingFlush: set<Cf>                // column families with pending_flush()
    var pendingCompaction: set<Cf>
    var unscheduledFlushes: int
    var unscheduledCompactions: int
    var bgFlushScheduled: int
    var bgCompactionScheduled: int
    var bgManualOnly: int
    var manual: Option<Manual>
    // What the thread pool holds: jobs submitted but not started, at work, and past their work but
    // still counted.
    var flushWaiting: nat
    var flushRunning: nat
    var autoWaiting: nat
    var autoRunning: nat
    var manualWaiting: nat
    var manualRunning: nat
    var closing: nat
    // RunManualCompaction calls before and after the wait for a count of zero.
    var entered: set<Caller>
    var passed: set<Caller>
    var finished: set<Caller>                // those of the latter whose compaction is done
    ghost var due: bool                      // a change that calls for MaybeScheduleFlushOrCompaction came after the last one

    ghost predicate QueuesOk()
      reads this`flushQueue, this`compactionQueue, this`pendingFlush, this`pendingCompaction,
            this`unscheduledFlushes, this`unscheduledCompactions, this`flushWaiting, this`autoWaiting
    {
      && NoDuplicates(flushQueue) && NoDuplicates(compactionQueue)
      && Flags(flushQueue, pendingFlush) && Flags(compactionQueue, pendingCompaction)
      && unscheduledFlushes >= 0 && unscheduledCompactions >= 0
      && |flushQueue| <= unscheduledFlushes + flushWaiting
      && |compactionQueue| <= unscheduledCompactions + autoWaiting
    }

    ghost predicate CountsOk()
      reads this`bgFlushScheduled, this`flushWaiting, this`flushRunning, this`bgCompactionScheduled,
            this`autoWaiting, this`autoRunning, this`manualWaiting, this`manualRunning, this`closing,
            this`bgManualOnly, this`entered, this`passed
    {
      && bgFlushScheduled == flushWaiting + flushRunning
      && bgCompactionScheduled == autoWaiting + autoRunning + manualWaiting + manualRunning + closing
      && bgManualOnly == |entered| + |passed| && entered !! passed
    }

    /** A call past its wait excludes automatic compactions; the registered compaction has one job. */
    ghost predicate ManualOk()
      reads this`passed, this`finished, this`autoWaiting, this`autoRunning, this`manual, this`manualWaiting,
            this`manualRunning
    {
      && (passed != {} ==> autoWaiting == 0 && autoRunning == 0) && finished <= passed
      && (match manual
          case None => manualWaiting == 0 && manualRunning == 0
          case Some(m) =>
            m.caller in passed - finished && (if m.inProgress then manualWaiting == 0 && manualRunning == 1
                                   else manualWaiting == 1 && manualRunning == 0))
    }

    /** What could be handed to the thread pool has been. */
    ghost predicate Prompt()
      reads this`gateOpen, this`unscheduledFlushes, this`bgFlushScheduled, this`unscheduledCompactions,
            this`bgManualOnly, this`bgCompactionScheduled
    {
      && (gateOpen && unscheduledFlushes > 0 ==> bgFlushScheduled >= maxFlushes)
      && (gateOpen && unscheduledFlushes > 0 && maxFlushes == 0 ==> bgFlushScheduled + bgCompactionScheduled >= maxCompactions)
      && (gateOpen && unscheduledCompactions > 0 && bgManualOnly == 0 ==> bgCompactionScheduled >= maxCompactions)
    }

    ghost predicate Valid()
      reads this
    {
      QueuesOk() && CountsOk() && ManualOk() && (!due ==> Prompt())
    }

    /** Compactions are queued, there are threads for them, and none is scheduled. */
    ghost predicate CompactionWaits()
      reads this
    {
      compactionQueue != [] && maxCompactions > 0 && bgCompactionScheduled == 0
    }

    /** The same for flushes, which share the compaction threads if they have none of their own. */
    ghost predicate FlushWaits()
      reads this
    {
      && flushQueue != [] && bgFlushScheduled == 0
      && (maxFlushes > 0 || (maxCompactions > 0 && bgCompactionScheduled == 0))
    }

    /** Queued work has a job on its way, unless the gate is closed, there are no threads for it, or, for compactions,
        a manual one has announced itself. */
    ghost predicate NoneStranded()
      reads this
    {
      gateOpen ==> !FlushWaits() && (bgManualOnly == 0 ==> !CompactionWaits())
    }

    constructor (maxFlushes: nat, maxCompactions: nat)
      ensures Valid() && this.maxFlushes == maxFlushes && this.maxCompactions == maxCompactions
      ensures flushQueue == [] && compactionQueue == [] && manual == None && !due && gateOpen
      ensures entered == passed == finished == {} && bgCompactionScheduled == bgManualOnly == 0
    {
      this.maxFlushes, this.maxCompactions, gateOpen := maxFlushes, maxCompactions, true;
      flushQueue, compactionQueue, pendingFlush, pendingCompaction := [], [], {}, {};
      unscheduledFlushes, unscheduledCompactions, bgFlushScheduled, bgCompactionScheduled := 0, 0, 0, 0;
      bgManualOnly, manual := 0, None;
      flushWaiting, flushRunning, autoWaiting, autoRunning := 0, 0, 0, 0;
      manualWaiting, manualRunning, closing, entered, passed, finished := 0, 0, 0, {}, {}, {};
      due := false;
    }

    /** Hands unscheduled work to the thread pool while slots are free, and no further. */
    method MaybeScheduleFlushOrCompaction()
      requires QueuesOk() && CountsOk() && ManualOk()
      modifies this`unscheduledFlushes, this`bgFlushScheduled, this`flushWaiting,
               this`unscheduledCompactions, this`bgCompactionScheduled, this`autoWaiting, this`due
      ensures Valid() && !due
      ensures unscheduledFlushes + flushWaiting == old(unscheduledFlushes + flushWaiting)
      ensures unscheduledCompactions + autoWaiting == old(unscheduledCompactions + autoWaiting)
      ensures flushWaiting >= old(flushWaiting) && autoWaiting >= old(autoWaiting)
      ensures bgManualOnly > 0 ==> autoWaiting == old(autoWaiting) && bgCompactionScheduled == old(bgCompactionScheduled)
      // within the limits
      ensures bgCompactionScheduled == old(bgCompactionScheduled) || bgCompactionScheduled <= maxCompactions
      ensures bgFlushScheduled == old(bgFlushScheduled) || bgFlushScheduled <= maxFlushes ||
              (maxFlushes == 0 && bgFlushScheduled + old(bgCompactionScheduled) <= maxCompactions)
    {
      due := false;
      if !gateOpen {
        return;
      }
      SubmitFlushes();
      if bgManualOnly > 0 {
        return;
      }
      SubmitCompactions();
    }

    /** Flushes use their own threads, or the compaction threads when they have none. */
    method SubmitFlushes()
      requires QueuesOk() && CountsOk() && ManualOk()
      modifies this`unscheduledFlushes, this`bgFlushScheduled, this`flushWaiting
      ensures QueuesOk() && CountsOk() && ManualOk() && flushWaiting >= old(flushWaiting)
      ensures unscheduledFlushes + flushWaiting == old(unscheduledFlushes + flushWaiting)
      ensures unscheduledFlushes > 0 ==> bgFlushScheduled >= maxFlushes
      ensures unscheduledFlushes > 0 && maxFlushes == 0 ==> bgFlushScheduled + bgCompactionScheduled >= maxCompactions
      ensures bgFlushScheduled == old(bgFlushScheduled) || bgFlushScheduled <= maxFlushes ||
              (maxFlushes == 0 && bgFlushScheduled + bgCompactionScheduled <= maxCompactions)
    {
      while unscheduledFlushes > 0 && bgFlushScheduled < maxFlushes
        invariant QueuesOk() && CountsOk() && ManualOk() && flushWaiting >= old(flushWaiting)
        invariant unscheduledFlushes + flushWaiting == old(unscheduledFlushes + flushWaiting)
        invariant bgFlushScheduled == old(bgFlushScheduled) || bgFlushScheduled <= maxFlushes
        decreases unscheduledFlushes
      {
        SubmitFlush();
      }
      if maxFlushes == 0 {
        while unscheduledFlushes > 0 && bgFlushScheduled + bgCompactionScheduled < maxCompactions
          invariant QueuesOk() && CountsOk() && ManualOk() && flushWaiting >= old(flushWaiting)
          invariant unscheduledFlushes + flushWaiting == old(unscheduledFlushes + flushWaiting)
          invariant bgFlushScheduled == old(bgFlushScheduled) || bgFlushScheduled <= maxFlushes ||
                    bgFlushScheduled + bgCompactionScheduled <= maxCompactions
          decreases unscheduledFlushes
        {
          SubmitFlush();
        }
      }
    }

    method SubmitCompactions()
      requires QueuesOk() && CountsOk() && ManualOk() && bgManualOnly == 0
      modifies this`unscheduledCompactions, this`bgCompactionScheduled, this`autoWaiting
      ensures QueuesOk() && CountsOk() && ManualOk()
      ensures autoWaiting >= old(autoWaiting) && bgCompactionScheduled >= old(bgCompactionScheduled)
      ensures unscheduledCompactions + autoWaiting == old(unscheduledCompactions + autoWaiting)
      ensures unscheduledCompactions > 0 ==> bgCompactionScheduled >= maxCompactions
      ensures bgCompactionScheduled == old(bgCompactionScheduled) || bgCompactionScheduled <= maxCompactions
    {
      while bgCompactionScheduled < maxCompactions && unscheduledCompactions > 0
        invariant QueuesOk() && CountsOk() && ManualOk()
        invariant autoWaiting >= old(autoWaiting) && bgCompactionScheduled >= old(bgCompactionScheduled)
        invariant unscheduledCompactions + autoWaiting == old(unscheduledCompactions + autoWaiting)
        invariant bgCompactionScheduled == old(bgCompactionScheduled) || bgCompactionScheduled <= maxCompactions
        decreases unscheduledCompactions
      {
        bgCompactionScheduled := bgCompactionScheduled + 1;
        unscheduledCompactions := unscheduledCompactions - 1;
        autoWaiting := autoWaiting + 1;
      }
    }

    /** One flush job goes to the thread pool. */
    method SubmitFlush()
      requires QueuesOk() && CountsOk() && ManualOk() && unscheduledFlushes > 0
      modifies this`unscheduledFlushes, this`bgFlushScheduled, this`flushWaiting
      ensures QueuesOk() && CountsOk() && ManualOk() && unscheduledFlushes == old(unscheduledFlushes) - 1
      ensures flushWaiting == old(flushWaiting) + 1 && bgFlushScheduled == old(bgFlushScheduled) + 1
    {
      unscheduledFlushes := unscheduledFlushes - 1;
      bgFlushScheduled := bgFlushScheduled + 1;
      flushWaiting := flushWaiting + 1;
    }

    method SchedulePendingFlush(cf: Cf, flushPending: bool)
      requires Valid()
      modifies this`flushQueue, this`pendingFlush, this`unscheduledFlushes, this`due
      ensures Valid()
      ensures unscheduledFlushes == old(unscheduledFlushes) + |flushQueue| - |old(flushQueue)|
      ensures flushQueue == if flushPending && cf !in old(flushQueue) then old(flushQueue) + [cf] else old(flushQueue)
      ensures flushPending ==> cf in flushQueue
    {
      if cf !in pendingFlush && flushPending {
        flushQueue := flushQueue + [cf];
        pendingFlush := pendingFlush + {cf};
        unscheduledFlushes := unscheduledFlushes + 1;
        due := true;
      }
    }

    method SchedulePendingCompaction(cf: Cf, needsCompaction: bool)
      requires Valid()
      modifies this`compactionQueue, this`pendingCompaction, this`unscheduledCompactions, this`due
      ensures Valid()
      ensures unscheduledCompactions == old(unscheduledCompactions) + |compactionQueue| - |old(compactionQueue)|
      ensures compactionQueue == if needsCompaction && cf !in old(compactionQueue) then old(compactionQueue) + [cf] else old(compactionQueue)
      ensures needsCompaction ==> cf in compactionQueue
    {
      if cf !in pendingCompaction && needsCompaction {
        compactionQueue := compactionQueue + [cf];
        pendingCompaction := pendingCompaction + {cf};
        unscheduledCompactions := unscheduledCompactions + 1;
        due := true;
      }
    }

    method PopFirstFromFlushQueue() returns (cf: Cf)
      requires NoDuplicates(flushQueue) && Flags(flushQueue, pendingFlush) && flushQueue != []
      modifies this`flushQueue, this`pendingFlush
      ensures NoDuplicates(flushQueue) && Flags(flushQueue, pendingFlush)
      ensures cf == old(flushQueue)[0] && flushQueue == old(flushQueue)[1..]
    {
      cf := flushQueue[0];
      flushQueue := flushQueue[1..];
      pendingFlush := pendingFlush - {cf};
    }

    /** A submitted flush job starts: it discards column families that cannot be flushed any more and
        takes the first that can. */
    method BackgroundFlush(flushable: set<Cf>) returns (cf: Option<Cf>)
      requires Valid() && flushWaiting > 0
      modifies this`flushQueue, this`pendingFlush, this`flushWaiting, this`flushRunning
      ensures Valid() && flushWaiting == old(flushWaiting) - 1 && flushRunning == old(flushRunning) + 1
      ensures exists n :: 0 <= n <= |old(flushQueue)| && flushQueue == old(flushQueue)[n..] && Takes(old(flushQueue), flushable, n, cf)
    {
      cf := None;
      ghost var q, n := flushQueue, 0;
      while flushQueue != []
        invariant NoDuplicates(flushQueue) && Flags(flushQueue, pendingFlush)
        invariant cf == None && n <= |q| && flushQueue == q[n..]
        invariant forall i :: 0 <= i < n ==> q[i] !in flushable
        modifies this`flushQueue, this`pendingFlush
        decreases |flushQueue|
      {
        var first := PopFirstFromFlushQueue();
        n := n + 1;
        if first in flushable {
          cf := Some(first);
          break;
        }
      }
      flushWaiting := flushWaiting - 1;
      flushRunning := flushRunning + 1;
      assert Takes(q, flushable, n, cf);
    }

    /** A flush job ends. */
    method BackgroundCallFlushDone()
      requires Valid() && flushRunning > 0
      modifies this`unscheduledFlushes, this`bgFlushScheduled, this`flushWaiting, this`flushRunning,
               this`unscheduledCompactions, this`bgCompactionScheduled, this`autoWaiting, this`due
      ensures Valid() && !due && flushRunning == old(flushRunning) - 1
      ensures unscheduledFlushes + flushWaiting == old(unscheduledFlushes + flushWaiting)
      ensures unscheduledCompactions + autoWaiting == old(unscheduledCompactions + autoWaiting)
    {
      bgFlushScheduled := bgFlushScheduled - 1;
      flushRunning := flushRunning - 1;
      MaybeScheduleFlushOrCompaction();
    }

    /** A submitted compaction job starts. With a manual compaction registered it is that one's job; no
        automatic job starts then. `picks` is whether the popped column family yields a compaction and
        `needsMore` whether it then still needs another. */
    method BackgroundCompaction(picks: bool, needsMore: bool) returns (isManual: bool, cf: Option<Cf>)
      requires Valid() && autoWaiting + manualWaiting > 0
      modifies this`unscheduledFlushes, this`bgFlushScheduled, this`flushWaiting, this`due, this`compactionQueue,
               this`pendingCompaction, this`unscheduledCompactions, this`bgCompactionScheduled, this`autoWaiting,
               this`autoRunning, this`manual, this`manualWaiting, this`manualRunning
      ensures Valid() && (due ==> old(due))
      ensures isManual <==> old(manual).Some?
      ensures isManual ==> cf == None && manual == Some(Manual(old(manual).value.caller, true)) && manualRunning == 1
      ensures isManual ==> compactionQueue == old(compactionQueue) && autoRunning == old(autoRunning)
      ensures isManual ==> bgCompactionScheduled == old(bgCompactionScheduled) && autoWaiting == old(autoWaiting)
      ensures isManual ==> unscheduledCompactions == old(unscheduledCompactions)
      ensures !isManual ==> autoRunning == old(autoRunning) + 1 && manual == None
      ensures !isManual ==> cf == if old(compactionQueue) == [] then None else Some(old(compactionQueue)[0])
      ensures !isManual ==> compactionQueue == (if cf == None then [] else
                              old(compactionQueue)[1..] + if picks && needsMore then [cf.value] else [])
      ensures !isManual ==> Compactions() == old(Compactions()) - 1 + if cf.Some? && picks && needsMore then 1 else 0
      ensures unscheduledFlushes + flushWaiting == old(unscheduledFlushes + flushWaiting)
    {
      isManual := manual.Some? && !manual.value.inProgress;
      cf := None;
      if isManual {
        manual := Some(Manual(manual.value.caller, true));
        manualWaiting, manualRunning := 0, 1;
      } else if manual.Some? {
        // an automatic job beside a manual one would give up here
        assert false;
      } else {
        cf := StartAutomatic(picks, needsMore);
      }
    }

    /** An automatic job takes the first column family, which may queue up again. */
    method StartAutomatic(picks: bool, needsMore: bool) returns (cf: Option<Cf>)
      requires Valid() && autoWaiting > 0 && manual == None
      modifies this`unscheduledFlushes, this`bgFlushScheduled, this`flushWaiting, this`due, this`compactionQueue,
               this`pendingCompaction, this`unscheduledCompactions, this`bgCompactionScheduled, this`autoWaiting,
               this`autoRunning
      ensures Valid() && (due ==> old(due)) && autoRunning == old(autoRunning) + 1
      ensures cf == if old(compactionQueue) == [] then None else Some(old(compactionQueue)[0])
      ensures compactionQueue == (if cf == None then [] else
                old(compactionQueue)[1..] + if picks && needsMore then [cf.value] else [])
      ensures Compactions() == old(Compactions()) - 1 + if cf.Some? && picks && needsMore then 1 else 0
      ensures unscheduledFlushes + flushWaiting == old(unscheduledFlushes + flushWaiting)
    {
      cf := TakeFirst();
      if cf.Some? && picks && needsMore {
        SchedulePendingCompaction(cf.value, true);
        MaybeScheduleFlushOrCompaction();
      }
    }

    method TakeFirst() returns (cf: Option<Cf>)
      requires Valid() && autoWaiting > 0 && manual == None
      modifies this`compactionQueue, this`pendingCompaction, this`autoWaiting, this`autoRunning
      ensures Valid() && autoRunning == old(autoRunning) + 1 && autoWaiting == old(autoWaiting) - 1
      ensures cf == if old(compactionQueue) == [] then None else Some(old(compactionQueue)[0])
      ensures compactionQueue == if cf == None then [] else old(compactionQueue)[1..]
      ensures cf.Some? ==> cf.value !in compactionQueue
    {
      cf := None;
      autoWaiting, autoRunning := autoWaiting - 1, autoRunning + 1;
      if compactionQueue != [] {
        cf := Some(compactionQueue[0]);
        compactionQueue := compactionQueue[1..];
        pendingCompaction := pendingCompaction - {cf.value};
      }
    }

    /** The end of a compaction's work: the manual compaction is unregistered. `done` is whether its whole range was
        compacted or it failed; otherwise its caller registers it again. */
    method CompactionWorkDone(isManual: bool, done: bool)
      requires Valid() && (if isManual then manualRunning > 0 else autoRunning > 0)
      modifies this`manual, this`manualRunning, this`autoRunning, this`closing, this`finished
      ensures Valid() && closing == old(closing) + 1
      ensures isManual ==> manual == None && autoRunning == old(autoRunning) && old(manual).Some?
      ensures isManual && done ==> finished == old(finished) + {old(manual).value.caller}
      ensures !isManual ==> manual == old(manual) && autoRunning == old(autoRunning) - 1
      ensures !isManual || !done ==> finished == old(finished)
    {
      closing := closing + 1;
      if isManual {
        if done {
          finished := finished + {manual.value.caller};
        }
        manual := None;
        manualRunning := manualRunning - 1;
      } else {
        autoRunning := autoRunning - 1;
      }
    }

    /** A compaction job leaves the count. */
    method BackgroundCallCompactionDone()
      requires Valid() && closing > 0
      modifies this`unscheduledFlushes, this`bgFlushScheduled, this`flushWaiting, this`closing,
               this`unscheduledCompactions, this`bgCompactionScheduled, this`autoWaiting, this`due
      ensures Valid() && !due && closing == old(closing) - 1
      ensures unscheduledFlushes + flushWaiting == old(unscheduledFlushes + flushWaiting)
      ensures unscheduledCompactions + autoWaiting == old(unscheduledCompactions + autoWaiting)
      ensures bgManualOnly > 0 ==> bgCompactionScheduled == old(bgCompactionScheduled) - 1
    {
      bgCompactionScheduled := bgCompactionScheduled - 1;
      closing := closing - 1;
      MaybeScheduleFlushOrCompaction();
    }

    // RunManualCompaction, from one wait to the next.

    method ManualEnter(c: Caller)
      requires Valid() && c !in entered && c !in passed
      modifies this`bgManualOnly, this`entered
      ensures Valid() && entered == old(entered) + {c} && bgManualOnly == old(bgManualOnly) + 1
    {
      bgManualOnly := bgManualOnly + 1;
      entered := entered + {c};
    }

    /** The first wait ends: no compaction is scheduled or running. */
    method ManualPass(c: Caller)
      requires Valid() && c in entered && bgCompactionScheduled == 0
      modifies this`entered, this`passed
      ensures Valid() && passed == old(passed) + {c} && entered == old(entered) - {c} && autoWaiting == autoRunning == 0
    {
      entered, passed := entered - {c}, passed + {c};
    }

    method ManualRegister(c: Caller)
      requires Valid() && c in passed && c !in finished && manual == None
      modifies this`manual, this`bgCompactionScheduled, this`manualWaiting
      ensures Valid() && manual == Some(Manual(c, false)) && autoWaiting == autoRunning == 0
      ensures manualWaiting == 1 && bgCompactionScheduled == old(bgCompactionScheduled) + 1
    {
      manual := Some(Manual(c, false));
      bgCompactionScheduled := bgCompactionScheduled + 1;
      manualWaiting := manualWaiting + 1;
    }

    /** The caller reschedules only later, and not at all if its compaction failed. Work is stranded exactly when this was
        the last manual compaction and others were queued meanwhile. */
    method ManualLeave(c: Caller)
      requires Valid() && c in finished
      modifies this`bgManualOnly, this`passed, this`finished, this`due
      ensures Valid() && due && bgManualOnly == old(bgManualOnly) - 1
      ensures passed == old(passed) - {c} && finished == old(finished) - {c}
      ensures !old(due) ==> (NoneStranded() <==> !(gateOpen && old(bgManualOnly) == 1 && CompactionWaits()))
    {
      bgManualOnly := bgManualOnly - 1;
      passed, finished := passed - {c}, finished - {c};
      due := true;
    }

    /** Work is stranded exactly when the gate is opened on queued work. */
    method SetGate(open: bool)
      requires Valid()
      modifies this`gateOpen, this`due
      ensures Valid() && gateOpen == open && (due <==> old(due) || open)
      ensures !old(due) ==> (NoneStranded() <==> !(open && !old(gateOpen) && (FlushWaits() || (bgManualOnly == 0 && CompactionWaits()))))
    {
      gateOpen, due := open, due || open;
    }

    /** What the effect of a critical section is stated about. */
    ghost function Look(): View
      reads this
    {
      View(Flushes(), flushWaiting, flushRunning, flushQueue, Compactions(), autoWaiting, autoRunning, compactionQueue, manual,
           manualRunning, bgCompactionScheduled, closing, entered, passed, finished, gateOpen)
    }

    /** Flush jobs that are still to start, and compaction jobs. */
    ghost function Flushes(): int
      reads this`unscheduledFlushes, this`flushWaiting
    {
      unscheduledFlushes + flushWaiting
    }

    ghost function Compactions(): int
      reads this`unscheduledCompactions, this`autoWaiting
    {
      unscheduledCompactions + autoWaiting
    }

    /** The critical sections after which queued work is stranded. */
    ghost predicate Strands(e: Event)
      reads this
    {
      match e
      case Leave(c) => c in finished && gateOpen && bgManualOnly == 1 && CompactionWaits()
      case Gate(open) => open && !gateOpen && (FlushWaits() || (bgManualOnly == 0 && CompactionWaits()))
      case _ => false
    }
  }

  /** The first n entries were popped: n - 1 unusable ones and then the one taken, or all of them. */
  ghost predicate Takes(q: seq<Cf>, flushable: set<Cf>, n: int, cf: Option<Cf>)
    requires 0 <= n <= |q|
  {
    match cf
    case Some(c) => 0 < n && c == q[n - 1] && c in flushable && forall i :: 0 <= i < n - 1 ==> q[i] !in flushable
    case None => n == |q| && forall i :: 0 <= i < n ==> q[i] !in flushable
  }

  // ------------------------------------------------------------------
  // Whole runs
  // ------------------------------------------------------------------

  datatype Event =
    | WantFlush(cf: Cf, flushPending: bool)
    | WantCompaction(cf: Cf, needsCompaction: bool)
    | FlushStarts(flushable: set<Cf>)
    | FlushEnds
    | CompactionStarts(picks: bool, needsMore: bool)
    | CompactionWorks(isManual: bool, done: bool)
    | CompactionEnds
    | Enter(c: Caller)
    | Pass(c: Caller)
    | Register(c: Caller)
    | Leave(c: Caller)
    | Gate(open: bool)
    | Reschedule                              // the end of CompactRange

  datatype View = View(flushes: int, flushWaiting: nat, flushRunning: nat, flushQueue: seq<Cf>,
                       compactions: int, autoWaiting: nat, autoRunning: nat, compactionQueue: seq<Cf>,
                       manual: Option<Manual>, manualRunning: nat, scheduled: int, closing: nat,
                       entered: set<Caller>, passed: set<Caller>, finished: set<Caller>, gateOpen: bool)

  /** Column families queued and jobs started. */
  datatype Tally = Tally(flushesQueued: nat, flushesStarted: nat, compactionsQueued: nat, compactionsStarted: nat)

  const NOTHING := Tally(0, 0, 0, 0)

  /** What a critical section queues and starts: a column family that is not queued yet, the next flush job, the next
      automatic compaction job and, when more is needed, another one. */
  ghost function TallyOf(v: View, e: Event): Tally {
    match e
    case WantFlush(cf, flushPending) => Tally(if flushPending && cf !in v.flushQueue then 1 else 0, 0, 0, 0)
    case WantCompaction(cf, needsCompaction) => Tally(0, 0, if needsCompaction && cf !in v.compactionQueue then 1 else 0, 0)
    case FlushStarts(_) => Tally(0, if v.flushWaiting > 0 then 1 else 0, 0, 0)
    case CompactionStarts(picks, needsMore) =>
      if v.autoWaiting > 0 then Tally(0, 0, if v.compactionQueue != [] && picks && needsMore then 1 else 0, 1) else NOTHING
    case _ => NOTHING
  }

  /** Jobs to start: those before, plus what was queued, minus what was started. */
  ghost predicate Balanced(v: View, t: Tally, v': View) {
    v'.flushes + t.flushesStarted == v.flushes + t.flushesQueued && v'.compactions + t.compactionsStarted == v.compactions + t.compactionsQueued
  }

  /** The effect of a critical section whose thread is at that point. */
  ghost predicate Moves(v: View, e: Event, v': View) {
    match e
    case WantFlush(cf, b) => v'.flushQueue == if b && cf !in v.flushQueue then v.flushQueue + [cf] else v.flushQueue
    case WantCompaction(cf, b) => v'.compactionQueue == if b && cf !in v.compactionQueue then v.compactionQueue + [cf] else v.compactionQueue
    case FlushStarts(_) => v.flushWaiting > 0 ==> v'.flushRunning == v.flushRunning + 1
    case FlushEnds => v.flushRunning > 0 ==> v'.flushRunning == v.flushRunning - 1
    case CompactionStarts(_, _) =>
      && (v.manual.Some? && !v.manual.value.inProgress ==> v'.manual == Some(Manual(v.manual.value.caller, true)))
      && (v.autoWaiting > 0 ==> v'.autoRunning == v.autoRunning + 1)
    case CompactionWorks(isManual, done) =>
      && (isManual && v.manualRunning > 0 && v.manual.Some? ==>
            v'.manual == None && v'.closing == v.closing + 1 && (done ==> v.manual.value.caller in v'.finished))
      && (!isManual && v.autoRunning > 0 ==> v'.autoRunning == v.autoRunning - 1 && v'.closing == v.closing + 1)
    case CompactionEnds => v.closing > 0 ==> v'.closing == v.closing - 1
    case Enter(c) => c !in v.passed ==> c in v'.entered
    case Pass(c) => c in v.entered && v.scheduled == 0 ==> c in v'.passed
    case Register(c) => c in v.passed && c !in v.finished && v.manual == None ==> v'.manual == Some(Manual(c, false))
    case Leave(c) => c in v.finished ==> c !in v'.passed
    case Gate(open) => v'.gateOpen == open
    case Reschedule => true
  }

  ghost predicate Effect(v: View, e: Event, v': View) {
    Balanced(v, TallyOf(v, e), v') && Moves(v, e, v')
  }

  /** Whether rescheduling is due after the event: a Leave or an opened gate calls for it, and whoever schedules does it. */
  ghost predicate CallsForScheduling(e: Event) { e.Leave? || (e.Gate? && e.open) }
  predicate Schedules(e: Event) { e.WantFlush? || e.WantCompaction? || e.Reschedule? }

  /** A critical section of RunManualCompaction up to its last wait, if its thread is at that point. */
  method PerformManual(s: Scheduler, e: Event)
    requires s.Valid() && (e.Enter? || e.Pass? || e.Register?)
    modifies s`bgManualOnly, s`entered, s`passed, s`manual, s`bgCompactionScheduled, s`manualWaiting
    ensures s.Valid() && Effect(old(s.Look()), e, s.Look())
  {
    if e.Enter? {
      PerformEnter(s, e.c);
    } else if e.Pass? {
      PerformPass(s, e.c);
    } else {
      PerformRegister(s, e.c);
    }
  }

  method PerformEnter(s: Scheduler, c: Caller)
    requires s.Valid()
    modifies s`bgManualOnly, s`entered
    ensures s.Valid() && Effect(old(s.Look()), Enter(c), s.Look())
  {
    if c !in s.entered && c !in s.passed {
      s.ManualEnter(c);
    }
  }

  method PerformPass(s: Scheduler, c: Caller)
    requires s.Valid()
    modifies s`entered, s`passed
    ensures s.Valid() && Effect(old(s.Look()), Pass(c), s.Look())
  {
    if c in s.entered && s.bgCompactionScheduled == 0 {
      s.ManualPass(c);
    }
  }

  method PerformRegister(s: Scheduler, c: Caller)
    requires s.Valid()
    modifies s`manual, s`bgCompactionScheduled, s`manualWaiting
    ensures s.Valid() && Effect(old(s.Look()), Register(c), s.Look())
  {
    if c in s.passed && c !in s.finished && s.manual == None {
      s.ManualRegister(c);
    }
  }

  /** A critical section of a flush thread, if it is at that point. */
  method PerformFlush(s: Scheduler, e: Event)
    requires s.Valid() && (e.FlushStarts? || e.FlushEnds?)
    modifies s
    ensures s.Valid() && (s.due ==> old(s.due))
    ensures Effect(old(s.Look()), e, s.Look())
  {
    if e.FlushEnds? {
      if s.flushRunning > 0 {
        s.BackgroundCallFlushDone();
      }
    } else if s.flushWaiting > 0 {
      var _ := s.BackgroundFlush(e.flushable);
    }
  }

  /** The start of a compaction. */
  method PerformStart(s: Scheduler, picks: bool, needsMore: bool)
    requires s.Valid()
    modifies s
    ensures s.Valid() && (s.due ==> old(s.due))
    ensures Effect(old(s.Look()), CompactionStarts(picks, needsMore), s.Look())
  {
    if s.autoWaiting + s.manualWaiting > 0 {
      var _, _ := s.BackgroundCompaction(picks, needsMore);
    }
  }

  /** Its end. */
  method PerformEnd(s: Scheduler, e: Event)
    requires s.Valid() && (e.CompactionWorks? || e.CompactionEnds?)
    modifies s
    ensures s.Valid() && (s.due ==> old(s.due))
    ensures Effect(old(s.Look()), e, s.Look())
  {
    if e.CompactionEnds? {
      if s.closing > 0 {
        s.BackgroundCallCompactionDone();
      }
    } else if if e.isManual then s.manualRunning > 0 else s.autoRunning > 0 {
      s.CompactionWorkDone(e.isManual, e.done);
    }
  }

  /** Any of these. */
  method PerformBackground(s: Scheduler, e: Event)
    requires s.Valid() && !Schedules(e) && !e.Leave? && !e.Gate? && !e.Enter? && !e.Pass? && !e.Register?
    modifies s
    ensures s.Valid() && (s.due ==> old(s.due))
    ensures Effect(old(s.Look()), e, s.Look())
  {
    if e.FlushStarts? || e.FlushEnds? {
      PerformFlush(s, e);
    } else if e.CompactionStarts? {
      PerformStart(s, e.picks, e.needsMore);
    } else {
      PerformEnd(s, e);
    }
  }

  /** One that schedules before it returns. */
  method PerformScheduling(s: Scheduler, e: Event)
    requires s.Valid() && Schedules(e)
    modifies s
    ensures s.Valid() && !s.due
    ensures Effect(old(s.Look()), e, s.Look())
  {
    if e.WantFlush? {
      s.SchedulePendingFlush(e.cf, e.flushPending);
    } else if e.WantCompaction? {
      s.SchedulePendingCompaction(e.cf, e.needsCompaction);
    }
    s.MaybeScheduleFlushOrCompaction();
  }

  /** One that calls for scheduling. */
  method PerformCalling(s: Scheduler, e: Event)
    requires s.Valid() && (e.Leave? || e.Gate?)
    modifies s`bgManualOnly, s`passed, s`finished, s`due, s`gateOpen
    ensures s.Valid() && (s.due ==> old(s.due) || CallsForScheduling(e))
    ensures !old(s.due) && s.due ==> (s.NoneStranded() <==> !old(s.Strands(e)))
    ensures !old(s.due) && !s.due ==> !old(s.Strands(e))
    ensures Effect(old(s.Look()), e, s.Look())
  {
    if e.Gate? {
      s.SetGate(e.open);
    } else if e.c in s.finished {
      s.ManualLeave(e.c);
    }
  }

  /** Any other. */
  method PerformOther(s: Scheduler, e: Event)
    requires s.Valid() && !e.Leave? && !e.Gate?
    modifies s
    ensures s.Valid() && (s.due ==> old(s.due)) && (Schedules(e) ==> !s.due)
    ensures Effect(old(s.Look()), e, s.Look())
  {
    if Schedules(e) {
      PerformScheduling(s, e);
    } else if e.Enter? || e.Pass? || e.Register? {
      PerformManual(s, e);
    } else {
      PerformBackground(s, e);
    }
  }

  lemma PromptStrandsNothing(s: Scheduler)
    requires s.Valid() && !s.due
    ensures s.NoneStranded()
  {
  }

  /** One critical section, if its thread is at that point. If no rescheduling was due before, then queued work is stranded
      after it exactly in the cases named by Strands. */
  method Perform(s: Scheduler, e: Event)
    requires s.Valid()
    modifies s
    ensures Effect(old(s.Look()), e, s.Look())
    ensures s.Valid() && (s.due ==> old(s.due) || CallsForScheduling(e)) && (Schedules(e) ==> !s.due)
    ensures !old(s.due) ==> (s.NoneStranded() <==> !old(s.Strands(e)))
  {
    if e.Leave? || e.Gate? {
      PerformCalling(s, e);
    } else {
      PerformOther(s, e);
    }
    if !s.due {
      PromptStrandsNothing(s);
    }
  }

  /** No Leave and no opening of the gate is still to be followed by a rescheduling. */
  ghost predicate FollowedUp(events: seq<Event>) {
    forall i :: 0 <= i < |events| && CallsForScheduling(events[i]) ==> exists j :: i < j < |events| && Schedules(events[j])
  }

  /** After any run: flags match queue membership, no queue holds a column family twice, every queued column family has
      a unit of work pending, and no automatic compaction is beside a manual one. No queued work is stranded, unless a
      Leave or an opening of the gate has not been followed up; Perform says which of these strand work. */
  method Run(s: Scheduler, events: seq<Event>) returns (ghost trace: seq<View>)
    requires s.Valid()
    modifies s
    ensures s.Valid() && NoDuplicates(s.flushQueue) && NoDuplicates(s.compactionQueue)
    ensures Flags(s.flushQueue, s.pendingFlush) && Flags(s.compactionQueue, s.pendingCompaction)
    ensures |s.flushQueue| <= s.unscheduledFlushes + s.flushWaiting
    ensures |s.compactionQueue| <= s.unscheduledCompactions + s.autoWaiting
    ensures s.manual.Some? ==> s.autoWaiting == 0 && s.autoRunning == 0
    ensures !old(s.due) && FollowedUp(events) ==> !s.due && s.NoneStranded()
    ensures Traces(trace, events) && trace[0] == old(s.Look()) && trace[|events|] == s.Look()
  {
    ghost var since := 0;
    trace := [s.Look()];
    for i := 0 to |events|
      invariant s.Valid() && 0 <= since <= i
      invariant Traces(trace, events[..i]) && trace[0] == old(s.Look()) && trace[i] == s.Look()
      invariant forall j :: since <= j < i ==> !Schedules(events[j])
      invariant s.due ==> (since == 0 && old(s.due)) || exists j :: 0 <= j < i && since <= j + 1 && CallsForScheduling(events[j])
    {
      Perform(s, events[i]);
      TracesOn(trace, events, i, s.Look());
      trace := trace + [s.Look()];
      if Schedules(events[i]) {
        since := i + 1;
      }
    }
    assert events[..|events|] == events;
  }

  /** The states of a run, each critical section having its effect. */
  ghost predicate Traces(trace: seq<View>, events: seq<Event>) {
    |trace| == |events| + 1 && forall i :: 0 <= i < |events| ==> Effect(trace[i], events[i], trace[i + 1])
  }

  lemma TracesOn(trace: seq<View>, events: seq<Event>, i: nat, v: View)
    requires i < |events| && Traces(trace, events[..i]) && Effect(trace[i], events[i], v)
    ensures Traces(trace + [v], events[..i + 1])
  {
    assert events[..i + 1] == events[..i] + [events[i]];
    forall k | 0 <= k <= i ensures Effect((trace + [v])[k], events[..i + 1][k], (trace + [v])[k + 1]) {
      assert k < i ==> Effect(trace[k], events[..i][k], trace[k + 1]);
    }
  }

  /** What the first n critical sections of a run queued and started. */
  ghost function Total(trace: seq<View>, events: seq<Event>, n: nat): Tally
    requires n <= |events| <= |trace|
  {
    if n == 0 then NOTHING
    else
      var t, x := Total(trace, events, n - 1), TallyOf(trace[n - 1], events[n - 1]);
      Tally(t.flushesQueued + x.flushesQueued, t.flushesStarted + x.flushesStarted,
            t.compactionsQueued + x.compactionsQueued, t.compactionsStarted + x.compactionsStarted)
  }

  /** No job comes from nowhere and none is lost: over a whole run jobs to start and jobs started add up to the jobs there
      were to start before and the column families queued. */
  lemma {:induction false} RunIsBalanced(trace: seq<View>, events: seq<Event>, n: nat)
    requires Traces(trace, events) && n <= |events|
    ensures Balanced(trace[0], Total(trace, events, n), trace[n])
  {
    if n > 0 {
      RunIsBalanced(trace, events, n - 1);
      assert Effect(trace[n - 1], events[n - 1], trace[n]);
    }
  }

  method ManualAtWork() returns (s: Scheduler)
    ensures fresh(s) && s.Valid() && !s.due && s.gateOpen && s.maxCompactions == 1 && s.compactionQueue == []
    ensures s.manual == Some(Manual(0, false)) && s.passed == {0} && s.bgManualOnly == 1
    ensures s.finished == {} && s.bgCompactionScheduled == 1
  {
    s := new Scheduler(1, 1);
    s.ManualEnter(0);
    s.ManualPass(0);
    s.ManualRegister(0);
  }

  /** A compaction is queued while a manual one is at work. */
  method QueuedMeanwhile() returns (s: Scheduler)
    ensures fresh(s) && s.Valid() && !s.due && s.gateOpen && s.maxCompactions == 1 && s.compactionQueue == [7]
    ensures s.manual == Some(Manual(0, false)) && s.passed == {0} && s.bgManualOnly == 1
    ensures s.finished == {} && s.bgCompactionScheduled == 1
  {
    s := ManualAtWork();
    s.SchedulePendingCompaction(7, true);
    s.MaybeScheduleFlushOrCompaction();
  }

  /** The manual one starts. */
  method ManualStarts() returns (s: Scheduler)
    ensures fresh(s) && s.Valid() && !s.due && s.gateOpen && s.maxCompactions == 1 && s.compactionQueue == [7]
    ensures s.manual == Some(Manual(0, true)) && s.passed == {0} && s.bgManualOnly == 1
    ensures s.finished == {} && s.bgCompactionScheduled == 1 && s.manualRunning == 1
  {
    s := QueuedMeanwhile();
    var _, _ := s.BackgroundCompaction(true, false);
  }

  /** It is done. */
  method ManualDone() returns (s: Scheduler)
    ensures fresh(s) && s.Valid() && !s.due && s.gateOpen && s.maxCompactions == 1 && s.compactionQueue == [7]
    ensures s.manual == None && s.finished == s.passed == {0} && s.bgManualOnly == 1
    ensures s.bgCompactionScheduled == 1 && s.closing > 0
  {
    s := ManualStarts();
    s.CompactionWorkDone(true, true);
  }

  /** The queued compaction stays behind when the manual one leaves without rescheduling. */
  method LeftBehind() returns (s: Scheduler)
    ensures s.Valid() && s.gateOpen && s.bgManualOnly == 0 && s.maxCompactions == 1 && s.passed == {} && s.manual == None
    ensures s.compactionQueue == [7] && s.bgCompactionScheduled == 0 && !s.NoneStranded()
  {
    s := ManualDone();
    s.BackgroundCallCompactionDone();
    s.ManualLeave(0);
  }
}
