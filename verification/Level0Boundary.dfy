/** Level-0 inputs for which a compaction wrongly takes itself for bottommost: two files, newest first, whose boundary
    range misses the empty key, and an older record of that key at level 2. The files' end points are among the records. */
module Level0Boundary {
  import opened DbFormat
  import opened CompactionLevels
  import opened CompactionIterator
  import opened CompactionReads

  const FILES := [FileMeta(3, OneByte(2), OneByte(3)), FileMeta(2, 0.0, OneByte(4))]
  const LEVELS := [FILES, [], [FileMeta(1, 0.0, OneByte(1))]]
  const INPUTS := [InputFiles(0, FILES)]
  const OLDER := Entry(0.0, 3, Value, [1])
  const LEVEL2: set<Entry> := {OLDER, Entry(OneByte(1), 2, Value, [])}

  function JobOf(universal: bool): Job {
    Job([], 10, Some(Compaction(LEVELS, [], 1, universal, true)))
  }

  /** The records of both files, with a version of the empty key to choose. */
  function InputOf(newest: Entry): seq<Entry> {
    [newest, Entry(OneByte(2), 8, Value, []), Entry(OneByte(3), 9, Value, []), Entry(OneByte(4), 6, Value, [])]
  }

  lemma Built(universal: bool)
    ensures BuiltOver(JobOf(universal).compaction.value, INPUTS, OneByte(2), OneByte(4))
  {
    var c, inputs := JobOf(universal).compaction.value, INPUTS;
    assert inputs[0].files[0].smallest == OneByte(2);
    assert IsBoundary(inputs, OneByte(2), OneByte(4));
    assert c.olderLevel0 == c.levels[0][1 + 1..];
    assert OlderThanInputs(c.levels, inputs, c.olderLevel0);
  }

  lemma Held(newest: Entry, i: nat)
    requires newest.key == 0.0 && i < 4
    ensures HoldsKey(INPUTS, InputOf(newest)[i].key)
  {
    var file := if i == 0 || i == 3 then 1 else 0;
    assert INPUTS[0].files[file].Covers(InputOf(newest)[i].key);
  }

  lemma Fits(universal: bool, newest: Entry)
    requires newest.key == 0.0 && newest.seqno == 7
    ensures JobFor(JobOf(universal), InputOf(newest)) && Sorted(InputOf(newest))
    ensures RunsOver(JobOf(universal), InputOf(newest), INPUTS, OneByte(2), OneByte(4))
  {
    Built(universal);
    forall i | 0 <= i < |InputOf(newest)| ensures HoldsKey(INPUTS, InputOf(newest)[i].key) {
      Held(newest, i);
    }
  }

  lemma Around(universal: bool, newest: Entry)
    requires newest.key == 0.0 && newest.seqno == 7
    ensures Surrounds(JobOf(universal), InputOf(newest), {}, LEVEL2) && Live(JobOf(universal), InputOf(newest), 10)
  {
    assert LEVELS[2][0].Covers(0.0);
  }

  /** Before the run the newest version hides the older one. */
  lemma HiddenBefore(newest: Entry)
    requires newest.key == 0.0 && newest.seqno == 7 && (newest.kind == Value ==> newest.value != OLDER.value)
    ensures !ReadsAs(Elems(InputOf(newest)) + LEVEL2, 0.0, 10, OLDER.value)
  {
    var store := Elems(InputOf(newest)) + LEVEL2;
    assert newest in InputOf(newest);
    assert newest in store;
  }

  /** Where it relies on its tests, the run lets the older record through. */
  lemma Exposed(universal: bool, newest: Entry)
    requires newest.key == 0.0 && newest.seqno == 7 && (newest.kind == Value || newest.kind == Deletion)
    requires Relies(JobOf(universal), InputOf(newest), 0)
    ensures var job, input := JobOf(universal), InputOf(newest);
            ReadsAs(Elems(Output(job, input, 0, |input|)) + LEVEL2, 0.0, 10, OLDER.value)
  {
    var job, input := JobOf(universal), InputOf(newest);
    Fits(universal, newest);
    ExposedAfter(job, input, 0, LEVEL2, OLDER);
    OutputIsSurvivors(job, input);
    assert After(job, input, {}, LEVEL2) == Elems(Output(job, input, 0, |input|)) + LEVEL2;
  }

  /** The run over the files is as the code would have it, and it changes the read of the empty key at the tip. */
  ghost predicate Fails(universal: bool, newest: Entry) {
    var job, input := JobOf(universal), InputOf(newest);
    && RunsOver(job, input, INPUTS, OneByte(2), OneByte(4)) && Surrounds(job, input, {}, LEVEL2) && Live(job, input, 10)
    && !ReadsAs(Elems(input) + LEVEL2, 0.0, 10, OLDER.value)
    && ReadsAs(Elems(Output(job, input, 0, |input|)) + LEVEL2, 0.0, 10, OLDER.value)
  }

  /** Level style: the newest version is zeroed, so the older one at level 2 hides it. */
  lemma Level0ZeroingExposes()
    ensures Fails(false, Entry(0.0, 7, Value, [2]))
  {
    var newest := Entry(0.0, 7, Value, [2]);
    Fits(false, newest);
    Around(false, newest);
    HiddenBefore(newest);
    assert Kept(JobOf(false), InputOf(newest), 0);
    Exposed(false, newest);
  }

  /** Universal style: the tombstone is dropped, so the older version at level 2 comes back. */
  lemma UniversalDropExposes()
    ensures Fails(true, Entry(0.0, 7, Deletion, []))
  {
    var newest := Entry(0.0, 7, Deletion, []);
    Fits(true, newest);
    Around(true, newest);
    HiddenBefore(newest);
    assert Obsolete(JobOf(true), InputOf(newest), 0);
    Exposed(true, newest);
  }
}
