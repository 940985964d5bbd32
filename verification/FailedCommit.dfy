/** A commit that fails for a batch of two memtables: the older one goes back to waiting and takes the batch's version edit
    with it, the younger one stays marked as flushed, and a later commit drops it although no version has its file. */
module FailedCommit {
  import opened DbFormat
  import opened MemTableList
  import opened ObsoleteFiles
  import opened FlushBatches
  import opened FailedFlush

  const BATCH := [Flushed(1, true), Flushed(1, false)]
  const HALF := [Frozen, Flushed(1, false)]
  const REDONE := [Flushed(2, true), Flushed(1, false)]

  lemma BothFrozen()
    ensures Run(S(1, [], map[], MemList([Frozen, Frozen], None), {}, {}, []))
  {
    assert Leads(START, [], START, Any);
    assert [] + [Frozen] == [Frozen] && [Frozen] + [Frozen] == [Frozen, Frozen];
    ListMoves(START, Freeze(0), MemList([Frozen], None));
    ListMoves(S(1, [], map[], MemList([Frozen], None), {}, {}, []), Freeze(0), MemList([Frozen, Frozen], None));
  }

  /** Job 1 picks both memtables. */
  lemma BatchPicked()
    ensures Run(S(1, [P1], map[1 := NEW], MemList([Flushing(1, true), Flushing(1, false)], None), {}, {}, []))
  {
    BothFrozen();
    var two := [Frozen, Frozen];
    Begins(S(1, [], map[], MemList(two, None), {}, {}, []), 1);
    assert [] + [P1] == [P1];
    assert two[..1] == [Frozen];
    assert Picked(two, 1) == [Flushing(1, true), Flushing(1, false)];
    ListMoves(S(1, [P1], map[1 := NEW], MemList(two, None), {}, {}, []), Pick(1, 0),
              MemList([Flushing(1, true), Flushing(1, false)], None));
  }

  /** It writes both into file 1 and starts to commit. */
  lemma BatchFlushed()
    ensures Run(S(2, [P1], map[1 := NEW], MemList(BATCH, Some(Committer(1, 1))), {1}, {}, []))
  {
    BatchPicked();
    var mems := [Flushing(1, true), Flushing(1, false)];
    Creates(S(1, [P1], map[1 := NEW], MemList(mems, None), {}, {}, []), 1, {1}, {1});
    assert map[1 := NEW][1 := NEW.(files := {1})] == map[1 := Job(1, {1}, true)];
    assert Completed(mems, 1, 1) == BATCH;
    Completes(S(2, [P1], map[1 := Job(1, {1}, true)], MemList(mems, None), {1}, {}, []), 1, 1, {},
              MemList(BATCH, Some(Committer(1, 1))));
    assert map[1 := Job(1, {1}, true)][1 := NEW] == map[1 := NEW];
  }

  /** The commit fails and the job ends. */
  lemma CommitFailed()
    ensures Run(S(2, [], map[], MemList(HALF, None), {1}, {}, []))
  {
    BatchFlushed();
    assert BATCH[0 := Frozen] == HALF;
    ListMoves(S(2, [P1], map[1 := NEW], MemList(BATCH, Some(Committer(1, 1))), {1}, {}, []), CommitFails(0), MemList(HALF, None));
    Ends(S(2, [P1], map[1 := NEW], MemList(HALF, None), {1}, {}, []), 1, []);
    assert map[1 := NEW] - {1} == map[];
  }

  /** Job 3 picks the older memtable again. */
  lemma HalfPicked()
    ensures Run(S(2, [Pending(3, 2)], map[3 := Job(2, {}, true)], MemList([Flushing(3, true), Flushed(1, false)], None), {1}, {}, []))
  {
    CommitFailed();
    Begins(S(2, [], map[], MemList(HALF, None), {1}, {}, []), 3);
    assert [] + [Pending(3, 2)] == [Pending(3, 2)];
    assert Picked(HALF, 3) == [Flushing(3, true), Flushed(1, false)];
    ListMoves(S(2, [Pending(3, 2)], map[3 := Job(2, {}, true)], MemList(HALF, None), {1}, {}, []), Pick(3, 0),
              MemList([Flushing(3, true), Flushed(1, false)], None));
  }

  /** It flushes it into file 2. */
  lemma HalfFlushedAgain()
    ensures Run(S(3, [Pending(3, 2)], map[3 := Job(2, {}, true)], MemList(REDONE, Some(Committer(3, 2))), {1, 2}, {}, []))
  {
    HalfPicked();
    var pending, jobs, mems := [Pending(3, 2)], map[3 := Job(2, {}, true)], [Flushing(3, true), Flushed(1, false)];
    Creates(S(2, pending, jobs, MemList(mems, None), {1}, {}, []), 3, {2}, {1, 2});
    assert jobs[3 := jobs[3].(files := {2})] == map[3 := Job(2, {2}, true)];
    assert Completed(mems, 3, 2) == REDONE;
    Completes(S(3, pending, map[3 := Job(2, {2}, true)], MemList(mems, None), {1, 2}, {}, []), 3, 2, {},
              MemList(REDONE, Some(Committer(3, 2))));
    assert map[3 := Job(2, {2}, true)][3 := jobs[3]] == jobs;
  }

  /** Its second commit drops the younger memtable, whose file was never added to a version and never will be. */
  lemma FlushedDataIsLost()
    ensures exists st :: Run(st) && Enabled(st, Commit(0)) && !RemovesOnlyRecorded(st, 0) && Orphan(Apply(st, Commit(0)), 1)
  {
    HalfFlushedAgain();
    var st := S(3, [Pending(3, 2)], map[3 := Job(2, {}, true)], MemList(REDONE, Some(Committer(3, 2))), {1, 2}, {}, []);
    More(st, Commit(0));
    var st' := Apply(st, Commit(0));
    assert REDONE[1..] == [Flushed(1, false)];
    assert PastOwn([Flushed(1, false)], 2) == [Flushed(1, false)];
    assert st'.lists[0] == MemList([Flushed(1, false)], Some(Committer(3, 2))) && st'.recorded == {2};
    SecondCommit(st');
  }

  lemma SecondCommit(st: State)
    requires st.lists == map[0 := MemList([Flushed(1, false)], Some(Committer(3, 2)))] && st.recorded == {2}
    requires st.nextFile == 3 && st.jobs == map[3 := Job(2, {}, true)]
    ensures Enabled(st, Commit(0)) && !RemovesOnlyRecorded(st, 0) && Orphan(Apply(st, Commit(0)), 1)
  {
    var st', mems := Apply(st, Commit(0)), st.lists[0].mems;
    assert mems[1..] == [] && st'.lists[0].mems == [] && st'.recorded == {2};
    forall n | 0 < n <= |mems| ensures !AllRecorded(st'.recorded, mems[..n]) {
      assert mems[..n][0] == Flushed(1, false);
    }
  }
}
