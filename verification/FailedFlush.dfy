/** A flush that fails after a younger memtable's flush is done: that file waits to be installed, no running job is old
    enough to protect it, a full scan deletes it, and a later flush installs it all the same. */
module FailedFlush {
  import opened DbFormat
  import opened MemTableList
  import opened ObsoleteFiles

  /** A state of one column family, with nothing recorded and nothing in the obsolete list. */
  function S(next: nat, pending: seq<Pending>, jobs: Jobs, list: MemList, disk: set<File>, live: set<File>, plans: seq<Plan>): State {
    State(next, pending, jobs, map[0 := list], disk, live, {}, {}, plans)
  }

  /** Some run from the initial state leads here. */
  ghost predicate Run(st: State) {
    exists steps :: Leads(START, steps, st, Any)
  }

  const START := S(1, [], map[], MemList([], None), {}, {}, [])
  const NEW := Job(1, {}, true)
  const PLAN := Plan({1}, {}, NO_PENDING_OUTPUT)

  lemma More(st: State, step: Step)
    requires Run(st) && Enabled(st, step)
    ensures Run(Apply(st, step))
  {
    var steps :| Leads(START, steps, st, Any);
    LeadsOn(START, steps, st, Any, step);
  }

  // One lemma per kind of step, from one such state to the next.

  lemma ListMoves(st: State, step: Step, list: MemList)
    requires Run(st) && Enabled(st, step) && (step.Freeze? || step.Pick? || step.Rollback? || step.CommitFails?) && st.lists.Keys == {0}
    requires step.cf == 0 && Apply(st, step).lists[0] == list
    ensures Run(st.(lists := map[0 := list]))
  {
    More(st, step);
    assert Apply(st, step) == st.(lists := map[0 := list]);
  }

  lemma Begins(st: State, j: JobId)
    requires Run(st) && j !in st.jobs
    ensures Run(st.(pending := st.pending + [Pending(j, st.nextFile)], jobs := st.jobs[j := Job(st.nextFile, {}, true)]))
  {
    More(st, Begin(j, true));
  }

  lemma Creates(st: State, j: JobId, files: set<File>, disk: set<File>)
    requires Run(st) && j in st.jobs && st.nextFile + 1 < NO_PENDING_OUTPUT
    requires files == st.jobs[j].files + {st.nextFile} && disk == st.disk + {st.nextFile}
    ensures Run(st.(nextFile := st.nextFile + 1, jobs := st.jobs[j := st.jobs[j].(files := files)], disk := disk))
  {
    More(st, NewFile(j));
  }

  lemma Completes(st: State, j: JobId, f: File, files: set<File>, list: MemList)
    requires Run(st) && Enabled(st, Complete(j, 0, f)) && st.lists.Keys == {0} && DoComplete(st.lists[0], j, f) == list
    requires files == st.jobs[j].files - {f}
    ensures Run(st.(jobs := st.jobs[j := st.jobs[j].(files := files)], lists := map[0 := list]))
  {
    More(st, Complete(j, 0, f));
    assert st.lists[0 := list] == map[0 := list];
  }

  lemma Ends(st: State, j: JobId, rest: seq<Pending>)
    requires Run(st) && Enabled(st, End(j)) && Erase(st.pending, j) == rest
    ensures Run(st.(pending := rest, jobs := st.jobs - {j}))
  {
    More(st, End(j));
  }

  // The run.

  const P1 := Pending(1, 1)
  const P2 := Pending(2, 1)
  const TWO := [Flushing(1, true), Flushing(2, true)]
  const DONE := [Flushing(1, true), Flushed(1, true)]
  const STRANDED := [Frozen, Flushed(1, true)]

  /** The older memtable is picked by job 1. */
  lemma FirstPicked()
    ensures Run(S(1, [P1], map[1 := NEW], MemList([Flushing(1, true)], None), {}, {}, []))
  {
    assert Leads(START, [], START, Any);
    var frozen := MemList([Frozen], None);
    assert [] + [Frozen] == frozen.mems;
    ListMoves(START, Freeze(0), frozen);
    var s1 := S(1, [], map[], frozen, {}, {}, []);
    Begins(s1, 1);
    assert [] + [P1] == [P1];
    assert Picked([Frozen], 1) == [Flushing(1, true)];
    ListMoves(S(1, [P1], map[1 := NEW], frozen, {}, {}, []), Pick(1, 0), MemList([Flushing(1, true)], None));
  }

  /** The younger one by job 2. */
  lemma BothPicked()
    ensures Run(S(1, [P1, P2], map[1 := NEW, 2 := NEW], MemList(TWO, None), {}, {}, []))
  {
    FirstPicked();
    var list := MemList([Flushing(1, true), Frozen], None);
    assert [Flushing(1, true)] + [Frozen] == list.mems;
    ListMoves(S(1, [P1], map[1 := NEW], MemList([Flushing(1, true)], None), {}, {}, []), Freeze(0), list);
    Begins(S(1, [P1], map[1 := NEW], list, {}, {}, []), 2);
    assert [P1] + [P2] == [P1, P2];
    assert list.mems[..1] == [Flushing(1, true)];
    assert Picked(list.mems, 2) == TWO;
    ListMoves(S(1, [P1, P2], map[1 := NEW, 2 := NEW], list, {}, {}, []), Pick(2, 0), MemList(TWO, None));
  }

  /** Job 2 is done, leaves its file to be installed after the older memtable's, and ends. */
  lemma YoungerEnds()
    ensures Run(S(2, [P1], map[1 := NEW], MemList(DONE, None), {1}, {}, []))
  {
    BothPicked();
    Creates(S(1, [P1, P2], map[1 := NEW, 2 := NEW], MemList(TWO, None), {}, {}, []), 2, {1}, {1});
    var jobs := map[1 := NEW, 2 := Job(1, {1}, true)];
    assert map[1 := NEW, 2 := NEW][2 := NEW.(files := {1})] == jobs;
    assert Completed(TWO, 2, 1) == DONE;
    Completes(S(2, [P1, P2], jobs, MemList(TWO, None), {1}, {}, []), 2, 1, {}, MemList(DONE, None));
    assert jobs[2 := NEW] == map[1 := NEW, 2 := NEW];
    assert Erase([P1, P2], 2) == [P1] by {
      assert Erase([P1, P2][1..], 2) == [];
    }
    Ends(S(2, [P1, P2], map[1 := NEW, 2 := NEW], MemList(DONE, None), {1}, {}, []), 2, [P1]);
    assert map[1 := NEW, 2 := NEW] - {2} == map[1 := NEW];
  }

  /** Job 1 fails and ends. */
  lemma OlderFails()
    ensures Run(S(2, [], map[], MemList(STRANDED, None), {1}, {}, []))
  {
    YoungerEnds();
    assert RolledBack(DONE, 1) == STRANDED;
    ListMoves(S(2, [P1], map[1 := NEW], MemList(DONE, None), {1}, {}, []), Rollback(1, 0), MemList(STRANDED, None));
    Ends(S(2, [P1], map[1 := NEW], MemList(STRANDED, None), {1}, {}, []), 1, []);
    assert map[1 := NEW] - {1} == map[];
  }

  /** The scan that follows a failure takes file 1. */
  lemma FileDeleted()
    ensures Run(S(2, [], map[], MemList(STRANDED, None), {}, {}, [PLAN]))
  {
    OlderFails();
    var st := S(2, [], map[], MemList(STRANDED, None), {1}, {}, []);
    More(st, Find(true));
    var st' := Apply(st, Find(true));
    assert st'.plans[0].candidates == {1};
    assert st'.plans == [PLAN] && st'.obsolete == {};
    More(st', Purge(0, 1));
    assert Apply(st', Purge(0, 1)).disk == {};
  }

  /** Job 3 picks the older memtable again. */
  lemma OlderPickedAgain()
    ensures Run(S(2, [Pending(3, 2)], map[3 := Job(2, {}, true)], MemList([Flushing(3, true), Flushed(1, true)], None), {}, {}, [PLAN]))
  {
    FileDeleted();
    Begins(S(2, [], map[], MemList(STRANDED, None), {}, {}, [PLAN]), 3);
    assert [] + [Pending(3, 2)] == [Pending(3, 2)];
    assert Picked(STRANDED, 3) == [Flushing(3, true), Flushed(1, true)];
    ListMoves(S(2, [Pending(3, 2)], map[3 := Job(2, {}, true)], MemList(STRANDED, None), {}, {}, [PLAN]), Pick(3, 0),
              MemList([Flushing(3, true), Flushed(1, true)], None));
  }

  /** It flushes it and finds the younger one done. */
  lemma OlderFlushedAgain()
    ensures Run(S(3, [Pending(3, 2)], map[3 := Job(2, {}, true)],
                  MemList([Flushed(2, true), Flushed(1, true)], Some(Committer(3, 2))), {2}, {}, [PLAN]))
  {
    OlderPickedAgain();
    var pending, jobs, mems := [Pending(3, 2)], map[3 := Job(2, {}, true)], [Flushing(3, true), Flushed(1, true)];
    Creates(S(2, pending, jobs, MemList(mems, None), {}, {}, [PLAN]), 3, {2}, {2});
    assert jobs[3 := jobs[3].(files := {2})] == map[3 := Job(2, {2}, true)];
    var list := MemList([Flushed(2, true), Flushed(1, true)], Some(Committer(3, 2)));
    assert Completed(mems, 3, 2) == list.mems;
    Completes(S(3, pending, map[3 := Job(2, {2}, true)], MemList(mems, None), {2}, {}, [PLAN]), 3, 2, {}, list);
    assert map[3 := Job(2, {2}, true)][3 := jobs[3]] == jobs;
  }

  /** Its commit installs file 1, which is gone. */
  lemma LiveFileIsGone()
    ensures exists st :: Run(st) && 1 in st.live && 1 !in st.disk
  {
    OlderFlushedAgain();
    var st := S(3, [Pending(3, 2)], map[3 := Job(2, {}, true)],
                MemList([Flushed(2, true), Flushed(1, true)], Some(Committer(3, 2))), {2}, {}, [PLAN]);
    More(st, Commit(0));
    var st' := Apply(st, Commit(0));
    assert st.lists[0].mems[1..] == [Flushed(1, true)];
    assert PastOwn([Flushed(1, true)], 2) == [Flushed(1, true)];
    More(st', Commit(0));
    assert 1 in Apply(st', Commit(0)).live && 1 !in Apply(st', Commit(0)).disk;
  }
}
