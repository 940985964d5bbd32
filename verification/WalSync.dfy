/** The write-ahead log bookkeeping: which log writers are open, which are being synced, and the sizes of
    the log files still needed. The methods about writers are critical sections of the DB mutex. The sizes are
    changed without it: the write thread adds to the total and to the current log while another thread, holding the
    mutex, takes old logs away, so each of those statements is split into its loads and stores. */
module WalSync {
  import opened DbFormat

  datatype Log = Log(number: nat, gettingSynced: bool)
  datatype AliveLog = AliveLog(number: nat, size: nat)

  /** A sync in progress: SyncWAL or a syncing write, for the logs up to a number. */
  datatype Sync = Sync(upTo: nat, byWriter: bool)

  ghost predicate HasNumber(logs: seq<Log>, n: nat) {
    exists i :: 0 <= i < |logs| && logs[i].number == n
  }

  function NumbersOf(logs: seq<Log>): set<nat> {
    set l | l in logs :: l.number
  }

  function TotalSize(alive: seq<AliveLog>): (n: nat) {
    if alive == [] then 0 else alive[0].size + TotalSize(alive[1..])
  }

  lemma {:induction false} TotalSizeAppend(a: seq<AliveLog>, x: AliveLog)
    ensures TotalSize(a + [x]) == TotalSize(a) + x.size
  {
    if a != [] {
      assert (a + [x])[1..] == a[1..] + [x];
      TotalSizeAppend(a[1..], x);
    }
  }

  ghost predicate SameNumbers(a: seq<Log>, b: seq<Log>) {
    |a| == |b| && forall i :: 0 <= i < |a| ==> a[i].number == b[i].number
  }

  lemma NumbersSame(a: seq<Log>, b: seq<Log>)
    requires SameNumbers(a, b)
    ensures NumbersOf(a) == NumbersOf(b)
  {
    forall n ensures n in NumbersOf(a) <==> n in NumbersOf(b) {
      if n in NumbersOf(a) {
        var i :| 0 <= i < |a| && a[i].number == n;
        assert b[i] in b;
      }
      if n in NumbersOf(b) {
        var i :| 0 <= i < |b| && b[i].number == n;
        assert a[i] in a;
      }
    }
  }

  ghost predicate Increasing(logs: seq<Log>) {
    forall i, j :: 0 <= i < j < |logs| ==> logs[i].number < logs[j].number
  }

  /** How many logs, from the oldest, have a number up to n; the first `from` are known to. */
  function CountUpTo(logs: seq<Log>, n: nat, from: nat := 0): (k: nat)
    requires from <= |logs|
    ensures from <= k <= |logs|
    ensures forall i :: from <= i < k ==> logs[i].number <= n
    ensures k < |logs| ==> logs[k].number > n
    decreases |logs| - from
  {
    if from == |logs| || logs[from].number > n then from else CountUpTo(logs, n, from + 1)
  }

  /** The same logs with every flag down. */
  function Cleared(logs: seq<Log>): (r: seq<Log>)
    ensures |r| == |logs|
    ensures forall i :: 0 <= i < |logs| ==> r[i] == Log(logs[i].number, false)
  {
    seq(|logs|, i requires 0 <= i < |logs| => Log(logs[i].number, false))
  }

  /** The flags are up on exactly the logs of the single active sync, a prefix of the deque. */
  ghost predicate FlagsOk(logs: seq<Log>, active: Option<Sync>, current: nat) {
    match active
    case None => forall i :: 0 <= i < |logs| ==> !logs[i].gettingSynced
    case Some(a) =>
      && logs != [] && logs[0].number <= a.upTo <= current && (a.byWriter ==> a.upTo == current)
      && (forall i :: 0 <= i < |logs| ==> (logs[i].gettingSynced <==> logs[i].number <= a.upTo))
  }

  /** The current log is open, and open logs are newer than released ones. */
  ghost predicate WritersOk(logs: seq<Log>, freed: set<nat>, current: nat) {
    && logs != [] && Increasing(logs) && logs[|logs| - 1].number == current
    && (forall n :: n in freed ==> n < logs[0].number)
  }

  /** Every writer ever created is open or released. */
  ghost predicate AllThere(logs: seq<Log>, freed: set<nat>, created: set<nat>) {
    forall n :: n in created <==> n in freed || HasNumber(logs, n)
  }

  ghost predicate AliveOrdered(alive: seq<AliveLog>, current: nat) {
    && alive != [] && alive[|alive| - 1].number == current
    && (forall i, j :: 0 <= i < j < |alive| ==> alive[i].number < alive[j].number)
  }

  /** The write thread on its way through `total += size; current.size += size`. */
  datatype Writing = NotWriting | TotalLoaded(size: nat, loaded: int) | TotalStored(size: nat)

  /** FindObsoleteFiles on its way through `total -= front.size; pop front`. */
  datatype Dropping = NotDropping | FrontLoaded(loaded: int) | FrontSubtracted

  /** What the total already counts and the sizes do not yet. */
  ghost function Outstanding(alive: seq<AliveLog>, writing: Writing, dropping: Dropping): int
    requires alive != []
  {
    (if writing.TotalStored? then writing.size else 0) - (if dropping == FrontSubtracted then alive[0].size else 0)
  }

  class Wal {
    var logs: seq<Log>                 // logs_, oldest first
    var freed: set<nat>                // released writers
    var alive: seq<AliveLog>           // alive_log_files_
    var totalLogSize: int
    var logfileNumber: nat             // the current log
    var logEmpty: bool
    var logDirSynced: bool
    var active: Option<Sync>           // the thread that is syncing, which owns the raised flags
    var writing: Writing               // where the write thread is, which does not hold the mutex
    var dropping: Dropping             // where FindObsoleteFiles is, which does
    ghost var created: set<nat>        // every log writer ever created
    ghost var drift: int               // updates of the total that a store has overwritten

    ghost predicate LogsOk()
      reads this`logs, this`freed, this`logfileNumber, this`active, this`created
    {
      FlagsOk(logs, active, logfileNumber) && WritersOk(logs, freed, logfileNumber) && AllThere(logs, freed, created)
    }

    ghost predicate AliveOk()
      reads this`alive, this`totalLogSize, this`logfileNumber, this`writing, this`dropping, this`drift
    {
      && AliveOrdered(alive, logfileNumber) && (dropping != NotDropping ==> |alive| > 1)
      && totalLogSize == TotalSize(alive) + Outstanding(alive, writing, dropping) + drift
    }

    /** Nobody is on the way through a change of the sizes. */
    predicate Quiet()
      reads this`writing, this`dropping
    {
      writing == NotWriting && dropping == NotDropping
    }

    ghost function Look(): View
      reads this
    {
      View(logs, active, logfileNumber, logEmpty, writing, dropping, alive, totalLogSize)
    }

    /** Methods that leave the sizes alone are about LogsOk, those that leave the writers alone about AliveOk. */
    ghost predicate Valid()
      reads this
    {
      LogsOk() && AliveOk()
    }

    constructor (first: nat)
      ensures Valid() && logs == [Log(first, false)] && active == None && freed == {} && logfileNumber == first && logEmpty
      ensures Quiet() && drift == 0 && totalLogSize == 0 && alive == [AliveLog(first, 0)]
    {
      logs, freed, alive, totalLogSize := [Log(first, false)], {}, [AliveLog(first, 0)], 0;
      logfileNumber, logEmpty, logDirSynced, active := first, true, false, None;
      writing, dropping := NotWriting, NotDropping;
      created, drift := {first}, 0;
    }

    /** SyncWAL, once its wait is over: raises the flag of every log up to the number it noted. */
    method SyncWALBegin(upTo: nat)
      requires LogsOk() && upTo <= logfileNumber
      requires !(logs[0].number <= upTo && logs[0].gettingSynced)
      modifies this`logs, this`active
      ensures LogsOk()
      ensures active == if old(logs)[0].number <= upTo then Some(Sync(upTo, false)) else old(active)
      ensures old(logs)[0].number > upTo ==> logs == old(logs)
      ensures SameNumbers(logs, old(logs))
    {
      Raise(upTo);
      if logs[0].number <= upTo {
        active := Some(Sync(upTo, false));
      }
    }

    /** A syncing write, once its wait is over: raises every flag. */
    method WriteSyncBegin()
      requires LogsOk() && !logs[0].gettingSynced
      modifies this`logs, this`active
      ensures LogsOk() && active == Some(Sync(logfileNumber, true))
      ensures SameNumbers(logs, old(logs)) && forall i :: 0 <= i < |logs| ==> logs[i].gettingSynced
    {
      Raise(logfileNumber);
      active := Some(Sync(logfileNumber, true));
    }

    /** Raises the flags of the logs up to a number, none of which is up already. */
    method Raise(upTo: nat)
      requires Increasing(logs) && logs != []
      requires forall i :: 0 <= i < |logs| && logs[i].number <= upTo ==> !logs[i].gettingSynced
      modifies this`logs
      ensures SameNumbers(logs, old(logs)) && Increasing(logs) && NumbersOf(logs) == NumbersOf(old(logs))
      ensures forall i :: 0 <= i < |logs| ==>
                logs[i].gettingSynced == (old(logs)[i].number <= upTo || old(logs)[i].gettingSynced)
    {
      var i := 0;
      while i < |logs| && logs[i].number <= upTo
        invariant 0 <= i <= |logs| == |old(logs)|
        invariant forall j :: 0 <= j < |logs| ==> logs[j].number == old(logs)[j].number
        invariant forall j :: 0 <= j < i ==> logs[j].gettingSynced && logs[j].number <= upTo
        invariant forall j :: i <= j < |logs| ==> logs[j] == old(logs)[j]
      {
        assert !logs[i].gettingSynced;
        logs := logs[i := Log(logs[i].number, true)];
        i := i + 1;
      }
      NumbersSame(logs, old(logs));
    }

    /** The end of a sync, by its owner or by one that found nothing to sync: on success the synced logs
        are released, except the last log of all; on failure their flags go down. */
    method MarkLogsSynced(upTo: nat, syncedDir: bool, ok: bool)
      requires LogsOk() && (logs[0].number <= upTo ==> active.Some? && active.value.upTo == upTo)
      modifies this`logs, this`freed, this`active, this`logDirSynced
      ensures LogsOk()
      ensures old(logs)[0].number <= upTo ==>
                && logs == Cleared(old(logs)[Released(old(logs), upTo, ok)..]) && active == None
                && freed == old(freed) + NumbersOf(old(logs)[..Released(old(logs), upTo, ok)])
      ensures old(logs)[0].number > upTo ==> logs == old(logs) && active == old(active) && freed == old(freed)
      ensures logDirSynced <==> old(logDirSynced) || (syncedDir && logfileNumber == upTo && ok)
    {
      NoteDirSynced(syncedDir && logfileNumber == upTo && ok);
      if logs[0].number <= upTo {
        FinishSync(upTo, ok);
      }
    }

    method NoteDirSynced(now: bool)
      modifies this`logDirSynced
      ensures logDirSynced <==> old(logDirSynced) || now
    {
      if now {
        logDirSynced := true;
      }
    }

    /** The loop of MarkLogsSynced when the sync owns some logs. */
    method FinishSync(upTo: nat, ok: bool)
      requires LogsOk() && logs[0].number <= upTo && active.Some? && active.value.upTo == upTo
      modifies this`logs, this`freed, this`active
      ensures LogsOk() && active == None
      ensures logs == Cleared(old(logs)[Released(old(logs), upTo, ok)..])
      ensures freed == old(freed) + NumbersOf(old(logs)[..Released(old(logs), upTo, ok)])
    {
      var rest, released := SettleOwned(logs, freed, created, logfileNumber, active, upTo, ok);
      logs, freed, active := rest, freed + released, None;
    }

    /** SwitchMemtable, after the new log file is there: a new current log, unless the old one is still
        empty. The write thread does this, so never during its own sync or write. */
    method SwitchMemtable(newNumber: nat)
      requires Valid() && newNumber > logfileNumber && (active.Some? ==> !active.value.byWriter) && Quiet()
      modifies this
      ensures Valid() && active == old(active) && freed == old(freed) && totalLogSize == old(totalLogSize)
      ensures Quiet() && drift == old(drift)
      ensures !old(logEmpty) ==> logs == old(logs) + [Log(newNumber, false)] && logfileNumber == newNumber && logEmpty
      ensures !old(logEmpty) ==> alive == old(alive) + [AliveLog(newNumber, 0)]
      ensures old(logEmpty) ==> logs == old(logs) && logfileNumber == old(logfileNumber) && alive == old(alive) && logEmpty
      ensures logDirSynced <==> old(logDirSynced) && old(logEmpty)
    {
      if !logEmpty {
        PushAlive(newNumber);
        OpenLog(newNumber);
        logEmpty, logDirSynced := true, false;
      }
    }

    /** The new log's file joins the alive ones, empty. */
    method PushAlive(n: nat)
      requires AliveOk() && n > logfileNumber && Quiet()
      modifies this`alive
      ensures alive == old(alive) + [AliveLog(n, 0)] && AliveOrdered(alive, n) && totalLogSize == TotalSize(alive) + drift
    {
      NewAlive(alive, logfileNumber, n);
      alive := alive + [AliveLog(n, 0)];
    }

    /** A new log becomes current. */
    method OpenLog(newNumber: nat)
      requires LogsOk() && newNumber > logfileNumber && (active.Some? ==> !active.value.byWriter)
      modifies this`logs, this`logfileNumber, this`created
      ensures LogsOk() && logs == old(logs) + [Log(newNumber, false)] && logfileNumber == newNumber
      ensures created == old(created) + {newNumber}
    {
      NewLog(logs, freed, created, logfileNumber, active, newNumber);
      logfileNumber := newNumber;
      logs := logs + [Log(newNumber, false)];
      created := created + {newNumber};
    }

    // The write thread, without the mutex.

    /** The load of `total_log_size_ += size`. */
    method LoadTotal(size: nat)
      requires AliveOk() && writing == NotWriting
      modifies this`writing
      ensures AliveOk() && writing == TotalLoaded(size, totalLogSize)
    {
      writing := TotalLoaded(size, totalLogSize);
    }

    /** The store: whatever happened to the total since the load is overwritten. */
    method StoreTotal()
      requires AliveOk() && writing.TotalLoaded?
      modifies this`writing, this`totalLogSize, this`drift
      ensures AliveOk() && writing == TotalStored(old(writing).size) && totalLogSize == old(writing.loaded + writing.size)
      ensures drift == old(drift + writing.loaded - totalLogSize)
    {
      drift := drift + writing.loaded - totalLogSize;
      totalLogSize, writing := writing.loaded + writing.size, TotalStored(writing.size);
    }

    /** The current log grows. */
    method AddSize()
      requires AliveOk() && writing.TotalStored?
      modifies this`writing, this`alive, this`logEmpty
      ensures AliveOk() && writing == NotWriting && !logEmpty
      ensures |alive| == |old(alive)| && forall i :: 0 <= i < |alive| ==>
                alive[i] == if i < |alive| - 1 then old(alive)[i] else AliveLog(logfileNumber, old(alive[i].size + writing.size))
    {
      var last := |alive| - 1;
      GrowLast(alive, writing.size);
      alive := alive[last := AliveLog(alive[last].number, alive[last].size + writing.size)];
      writing, logEmpty := NotWriting, false;
    }

    /** A whole record, when nobody comes between. */
    method AddRecord(size: nat)
      requires AliveOk() && writing == NotWriting
      modifies this`writing, this`alive, this`totalLogSize, this`logEmpty, this`drift
      ensures AliveOk() && writing == NotWriting && !logEmpty && drift == old(drift) && totalLogSize == old(totalLogSize) + size
      ensures |alive| == |old(alive)| && forall i :: 0 <= i < |alive| ==>
                alive[i] == if i < |alive| - 1 then old(alive)[i] else AliveLog(logfileNumber, old(alive)[i].size + size)
    {
      LoadTotal(size);
      StoreTotal();
      AddSize();
    }

    // FindObsoleteFiles, with the mutex.

    /** The load of `total_log_size_ -= earliest.size` for a log below the number. */
    method DropLoad(minLogNumber: nat)
      requires AliveOk() && dropping == NotDropping && alive[0].number < minLogNumber <= logfileNumber
      modifies this`dropping
      ensures AliveOk() && dropping == FrontLoaded(totalLogSize)
    {
      dropping := FrontLoaded(totalLogSize);
    }

    method DropStore()
      requires AliveOk() && dropping.FrontLoaded?
      modifies this`dropping, this`totalLogSize, this`drift
      ensures AliveOk() && dropping == FrontSubtracted && totalLogSize == old(dropping.loaded - alive[0].size)
      ensures drift == old(drift + dropping.loaded - totalLogSize)
    {
      drift := drift + dropping.loaded - totalLogSize;
      totalLogSize, dropping := dropping.loaded - alive[0].size, FrontSubtracted;
    }

    method DropPop()
      requires AliveOk() && dropping == FrontSubtracted
      modifies this`dropping, this`alive
      ensures AliveOk() && dropping == NotDropping && alive == old(alive)[1..]
    {
      alive, dropping := alive[1..], NotDropping;
    }

    /** The whole loop, when nobody comes between: the files of logs below the number are forgotten. */
    method DropAlive(minLogNumber: nat)
      requires AliveOk() && dropping == NotDropping && minLogNumber <= logfileNumber
      modifies this`dropping, this`alive, this`totalLogSize, this`drift
      ensures AliveOk() && dropping == NotDropping && drift == old(drift) && alive[0].number >= minLogNumber
      ensures exists d :: 0 <= d <= |old(alive)| && alive == old(alive)[d..] &&
                forall i :: 0 <= i < d ==> old(alive)[i].number < minLogNumber
    {
      ghost var all, d := alive, 0;
      while alive[0].number < minLogNumber
        invariant AliveOk() && dropping == NotDropping && drift == old(drift)
        invariant 0 <= d <= |all| && alive == all[d..]
        invariant forall i :: 0 <= i < d ==> all[i].number < minLogNumber
        decreases |alive|
      {
        DropLoad(minLogNumber);
        DropStore();
        DropPop();
        d := d + 1;
      }
    }

    /** FindObsoleteFiles releases the writers of logs below a number, up to one that is being synced, for
        which it waits. Neither a log being synced nor the current log is released. */
    method ReleaseObsolete(minLogNumber: nat) returns (mustWait: bool)
      requires LogsOk() && minLogNumber <= logfileNumber
      modifies this`logs, this`freed
      ensures LogsOk() && (mustWait <==> logs[0].number < minLogNumber)
      ensures mustWait ==> logs[0].gettingSynced
      ensures exists d :: 0 <= d < |old(logs)| && logs == old(logs)[d..] && Releases(old(logs), old(freed), freed, minLogNumber, d)
    {
      ghost var all, was, d := logs, freed, 0;
      assert all[..0] == [];
      while logs[0].number < minLogNumber
        invariant LogsOk()
        invariant 0 <= d < |all| && logs == all[d..] && Releases(all, was, freed, minLogNumber, d)
        decreases |logs|
      {
        if logs[0].gettingSynced {
          return true;
        }
        PopFirst(logs, freed, created, logfileNumber, active);
        ReleasesOne(all, was, freed, minLogNumber, d);
        freed := freed + {logs[0].number};
        logs := logs[1..];
        d := d + 1;
      }
      mustWait := false;
    }
  }

  // ------------------------------------------------------------------
  // Runs
  // ------------------------------------------------------------------

  /** What the effect of a step is stated about. */
  datatype View = View(logs: seq<Log>, active: Option<Sync>, current: nat, empty: bool, writing: Writing, dropping: Dropping,
                       alive: seq<AliveLog>, total: int)

  /** The effect of a step whose thread is at that point. With `exclusive`, a store waits until it overwrites nothing. */
  ghost predicate Moves(v: View, e: Event, v': View, exclusive: bool) {
    v.logs != [] && v.alive != [] && v'.logs != [] ==>
      match e
      case SyncWAL(upTo) =>
        v.dropping == NotDropping && v.logs[0].number <= upTo <= v.current && !v.logs[0].gettingSynced ==> v'.active == Some(Sync(upTo, false))
      case WriteSync => v.dropping == NotDropping && !v.logs[0].gettingSynced ==> v'.active == Some(Sync(v.current, true))
      case Synced(upTo, _, _) =>
        v.dropping == NotDropping && v.active.Some? && v.active.value.upTo == upTo && v.logs[0].number <= upTo ==> v'.active == None
      case Switch(n) =>
        n > v.current && (v.active.Some? ==> !v.active.value.byWriter) && v.writing == NotWriting && v.dropping == NotDropping && !v.empty ==>
          v'.current == n
      case WriteLoads(size) => v.writing == NotWriting ==> v'.writing == TotalLoaded(size, v.total)
      case WriteStores =>
        v.writing.TotalLoaded? && (exclusive ==> v.writing.loaded == v.total) ==>
          v'.writing == TotalStored(v.writing.size) && v'.total == v.writing.loaded + v.writing.size
      case WriteGrows => v.writing.TotalStored? ==> v'.writing == NotWriting
      case DropLoads(n) => v.dropping == NotDropping && v.alive[0].number < n <= v.current ==> v'.dropping == FrontLoaded(v.total)
      case DropStores =>
        v.dropping.FrontLoaded? && (exclusive ==> v.dropping.loaded == v.total) ==>
          v'.dropping == FrontSubtracted && v'.total == v.dropping.loaded - v.alive[0].size
      case DropPops => v.dropping == FrontSubtracted ==> v'.dropping == NotDropping && v'.alive == v.alive[1..]
      case Release(n) => v.dropping == NotDropping && n <= v.current ==> v'.logs[0].number >= n || v'.logs[0].gettingSynced
  }

  datatype Event =
    | SyncWAL(upTo: nat)
    | WriteSync
    | Synced(upTo: nat, syncedDir: bool, ok: bool)
    | Switch(newNumber: nat)
    | WriteLoads(size: nat)
    | WriteStores
    | WriteGrows
    | DropLoads(minLogNumber: nat)
    | DropStores
    | DropPops
    | Release(minLogNumber: nat)

  /** A critical section of a sync, if its thread is at that point: it waits for the oldest log, and marks only what it
      owns. */
  method PerformSync(w: Wal, e: Event)
    requires w.LogsOk() && (e.SyncWAL? || e.WriteSync? || e.Synced?)
    modifies w`logs, w`freed, w`active, w`logDirSynced
    ensures w.LogsOk() && old(w.freed) <= w.freed && Moves(old(w.Look()), e, w.Look(), false)
  {
    match e {
      case SyncWAL(upTo) =>
        if upTo <= w.logfileNumber && !(w.logs[0].number <= upTo && w.logs[0].gettingSynced) {
          w.SyncWALBegin(upTo);
        }
      case WriteSync => if !w.logs[0].gettingSynced { w.WriteSyncBegin(); }
      case Synced(upTo, syncedDir, ok) =>
        if w.logs[0].number <= upTo ==> w.active.Some? && w.active.value.upTo == upTo {
          w.MarkLogsSynced(upTo, syncedDir, ok);
        }
    }
  }

  /** What a store undoes: the change of the total since its load. */
  function Overwritten(e: Event, writing: Writing, dropping: Dropping, total: int): int {
    if e.WriteStores? && writing.TotalLoaded? then writing.loaded - total
    else if e.DropStores? && dropping.FrontLoaded? then dropping.loaded - total
    else 0
  }

  function Sum(xs: seq<int>): int {
    if xs == [] then 0 else Sum(xs[..|xs| - 1]) + xs[|xs| - 1]
  }

  /** A step on the sizes, if its thread is at that point. With `exclusive`, a store happens only if nobody has changed
      the total since its load. */
  method PerformSizes(w: Wal, e: Event, exclusive: bool)
    requires w.AliveOk()
    modifies w`writing, w`dropping, w`alive, w`totalLogSize, w`logEmpty, w`drift
    ensures w.AliveOk() && w.drift == old(w.drift) + if exclusive then 0 else old(Overwritten(e, w.writing, w.dropping, w.totalLogSize))
    ensures !Locks(e) ==> Moves(old(w.Look()), e, w.Look(), exclusive)
  {
    match e {
      case WriteLoads(size) => if w.writing == NotWriting { w.LoadTotal(size); }
      case WriteStores => if w.writing.TotalLoaded? && (exclusive ==> w.writing.loaded == w.totalLogSize) { w.StoreTotal(); }
      case WriteGrows => if w.writing.TotalStored? { w.AddSize(); }
      case DropLoads(n) => if w.dropping == NotDropping && w.alive[0].number < n <= w.logfileNumber { w.DropLoad(n); }
      case DropStores => if w.dropping.FrontLoaded? && (exclusive ==> w.dropping.loaded == w.totalLogSize) { w.DropStore(); }
      case DropPops => if w.dropping == FrontSubtracted { w.DropPop(); }
      case _ =>
    }
  }

  /** A step that holds the mutex, if its thread is at that point. It waits while logs are dropped, and the write thread
      does not switch logs during its own sync or write. */
  method PerformLocked(w: Wal, e: Event)
    requires w.Valid() && Locks(e)
    modifies w
    ensures w.Valid() && old(w.freed) <= w.freed && w.drift == old(w.drift) && Moves(old(w.Look()), e, w.Look(), false)
  {
    if w.dropping == NotDropping {
      if e.Switch? {
        if e.newNumber > w.logfileNumber && (w.active.Some? ==> !w.active.value.byWriter) && w.Quiet() {
          w.SwitchMemtable(e.newNumber);
        }
      } else if e.Release? {
        if e.minLogNumber <= w.logfileNumber {
          var _ := w.ReleaseObsolete(e.minLogNumber);
        }
      } else {
        PerformSync(w, e);
      }
    }
  }

  predicate Locks(e: Event) { e.SyncWAL? || e.WriteSync? || e.Synced? || e.Switch? || e.Release? }

  /** One step of one thread. */
  method Perform(w: Wal, e: Event, exclusive: bool) returns (lost: int)
    requires w.Valid()
    modifies w
    ensures w.Valid() && old(w.freed) <= w.freed && w.drift == old(w.drift) + lost
    ensures lost == if exclusive then 0 else old(Overwritten(e, w.writing, w.dropping, w.totalLogSize))
    ensures Moves(old(w.Look()), e, w.Look(), exclusive)
  {
    lost := if exclusive then 0 else Overwritten(e, w.writing, w.dropping, w.totalLogSize);
    if Locks(e) {
      PerformLocked(w, e);
    } else {
      PerformSizes(w, e, exclusive);
    }
  }

  /** After any run: the current log is open, no open log was released, every log ever created is open or released, and
      raised flags belong to the one sync in progress. `lost` tells of each step what its store overwrote. Once nobody is
      on the way through a change, the total is the sum of the sizes exactly when that adds up to nothing, and so it does
      if every store was exclusive. */
  method Run(w: Wal, events: seq<Event>, exclusive: bool) returns (lost: seq<int>, ghost trace: seq<View>)
    requires w.Valid()
    modifies w
    ensures w.Valid() && old(w.freed) <= w.freed && w.logfileNumber !in w.freed
    ensures forall i :: 0 <= i < |w.logs| ==> w.logs[i].number !in w.freed
    ensures forall i :: 0 <= i < |w.logs| && w.logs[i].gettingSynced ==> w.active.Some? && w.logs[i].number <= w.active.value.upTo
    ensures |lost| == |events| && w.drift == old(w.drift) + Sum(lost) && (exclusive ==> Sum(lost) == 0)
    ensures w.Quiet() ==> w.totalLogSize == TotalSize(w.alive) + old(w.drift) + Sum(lost)
    ensures Traces(trace, events, exclusive) && trace[0] == old(w.Look()) && trace[|events|] == w.Look()
    ensures forall i :: 0 <= i < |events| ==>
              lost[i] == if exclusive then 0 else Overwritten(events[i], trace[i].writing, trace[i].dropping, trace[i].total)
  {
    lost, trace := [], [w.Look()];
    for i := 0 to |events|
      invariant w.Valid() && old(w.freed) <= w.freed && |lost| == i
      invariant w.drift == old(w.drift) + Sum(lost) && (exclusive ==> Sum(lost) == 0)
      invariant Traces(trace, events[..i], exclusive) && trace[0] == old(w.Look()) && trace[i] == w.Look()
      invariant forall j :: 0 <= j < i ==>
                  lost[j] == if exclusive then 0 else Overwritten(events[j], trace[j].writing, trace[j].dropping, trace[j].total)
    {
      var x := Perform(w, events[i], exclusive);
      TracesOn(trace, events, i, w.Look(), exclusive);
      trace := trace + [w.Look()];
      assert (lost + [x])[..|lost|] == lost;
      lost := lost + [x];
    }
    assert events[..|events|] == events;
  }

  /** The states of a run, each step having its effect. */
  ghost predicate Traces(trace: seq<View>, events: seq<Event>, exclusive: bool) {
    |trace| == |events| + 1 && forall i :: 0 <= i < |events| ==> Moves(trace[i], events[i], trace[i + 1], exclusive)
  }

  lemma TracesOn(trace: seq<View>, events: seq<Event>, i: nat, v: View, exclusive: bool)
    requires i < |events| && Traces(trace, events[..i], exclusive) && Moves(trace[i], events[i], v, exclusive)
    ensures Traces(trace + [v], events[..i + 1], exclusive)
  {
    assert events[..i + 1] == events[..i] + [events[i]];
    forall k | 0 <= k <= i ensures Moves((trace + [v])[k], events[..i + 1][k], (trace + [v])[k + 1], exclusive) {
      assert k < i ==> Moves(trace[k], events[..i][k], trace[k + 1], exclusive);
    }
  }

  method TwoLogs() returns (wal: Wal)
    ensures fresh(wal) && wal.AliveOk() && wal.Quiet() && wal.totalLogSize == 10 && wal.logfileNumber == 2
    ensures wal.alive == [AliveLog(1, 10), AliveLog(2, 0)]
  {
    wal := new Wal(1);
    wal.AddRecord(10);
    assert wal.alive == [AliveLog(1, 10)];
    wal.SwitchMemtable(2);
  }

  /** The total is not the sum: a log is dropped between the write thread's load and its store, and its size is counted
      for good. */
  method LostUpdate() returns (total: int, sum: nat)
    ensures total == 15 && sum == 5
  {
    var wal := TwoLogs();
    wal.LoadTotal(5);
    wal.DropAlive(2);
    assert wal.alive == [AliveLog(2, 0)];
    wal.StoreTotal();
    wal.AddSize();
    assert wal.alive == [AliveLog(2, 5)];
    total, sum := wal.totalLogSize, TotalSize(wal.alive);
  }

  // ------------------------------------------------------------------
  // Finishing a sync
  // ------------------------------------------------------------------

  /** The loop: each log up to the number is released or has its flag taken down. */
  method Settle(all: seq<Log>, upTo: nat, ok: bool) returns (logs: seq<Log>, released: set<nat>)
    requires all != []
    requires forall i :: CountUpTo(all, upTo) <= i < |all| ==> !all[i].gettingSynced
    ensures logs == Cleared(all[Released(all, upTo, ok)..])
    ensures released == NumbersOf(all[..Released(all, upTo, ok)])
  {
    ghost var k := CountUpTo(all, upTo);
    logs, released := all, {};
    var i := 0;
    ghost var n := 0;
    while i < |logs| && logs[i].number <= upTo
      invariant 0 <= n && 0 <= i && Settled(all, n, i, logs) && n + i <= k && logs != []
      invariant released == NumbersOf(all[..n])
      invariant i > 0 ==> !ok || |logs| == 1
      invariant !ok ==> n == 0
      decreases |all| - n - i
    {
      SettledAt(all, n, i, logs);
      if ok && |logs| > 1 {
        ReleaseFirst(all, n, logs);
        released := released + {logs[i].number};
        logs := logs[..i] + logs[i + 1..];
        n := n + 1;
      } else {
        ClearNext(all, n, i, logs);
        logs := logs[i := Log(logs[i].number, false)];
        i := i + 1;
      }
    }
    if i < |logs| {
      SettledAt(all, n, i, logs);
    }
    assert n + i == k && n == Released(all, upTo, ok);
    SettledAll(all, n, i, logs);
    ClearedRest(all, n + i, n);
  }

  /** After n releases and i flags taken down. */
  ghost predicate Settled(all: seq<Log>, n: nat, i: nat, logs: seq<Log>) {
    && i <= |logs| && n + |logs| == |all|
    && logs[..i] == Cleared(all[n..n + i]) && logs[i..] == all[n + i..]
  }

  lemma SettledAt(all: seq<Log>, n: nat, i: nat, logs: seq<Log>)
    requires Settled(all, n, i, logs) && i < |logs|
    ensures logs[i] == all[n + i]
  {
    assert logs[i] == logs[i..][0];
  }

  lemma ReleaseFirst(all: seq<Log>, n: nat, logs: seq<Log>)
    requires Settled(all, n, 0, logs) && logs != []
    ensures Settled(all, n + 1, 0, logs[..0] + logs[1..])
    ensures NumbersOf(all[..n + 1]) == NumbersOf(all[..n]) + {logs[0].number}
  {
    assert all[..n + 1] == all[..n] + [all[n]];
    assert forall l :: l in all[..n + 1] <==> l in all[..n] || l == all[n];
    assert logs == all[n..];
    assert logs[..0] + logs[1..] == logs[1..];
  }

  lemma ClearNext(all: seq<Log>, n: nat, i: nat, logs: seq<Log>)
    requires Settled(all, n, i, logs) && i < |logs|
    ensures Settled(all, n, i + 1, logs[i := Log(logs[i].number, false)])
  {
    SettledAt(all, n, i, logs);
    var logs' := logs[i := Log(logs[i].number, false)];
    assert logs'[..i + 1] == logs[..i] + [Log(logs[i].number, false)];
    assert all[n..n + i + 1] == all[n..n + i] + [all[n + i]];
    assert logs'[i + 1..] == logs[i..][1..];
  }

  lemma SettledAll(all: seq<Log>, n: nat, i: nat, logs: seq<Log>)
    requires Settled(all, n, i, logs)
    ensures logs == Cleared(all[n..n + i]) + all[n + i..]
  {
    assert logs == logs[..i] + logs[i..];
  }

  /** How many logs a finished sync releases: all it covered, but never the last log. */
  function Released(logs: seq<Log>, upTo: nat, ok: bool): nat
    requires logs != []
  {
    var k := CountUpTo(logs, upTo);
    if !ok then 0 else if k < |logs| then k else k - 1
  }

  /** On success all logs up to the number but the last log of all are released, on failure none is. */
  lemma ReleasedAre(logs: seq<Log>, upTo: nat, ok: bool)
    requires logs != []
    ensures Released(logs, upTo, ok) <= |logs|
    ensures !ok ==> Released(logs, upTo, ok) == 0
    ensures ok && Increasing(logs) ==> forall i :: 0 <= i < |logs| - 1 && logs[i].number <= upTo ==>
              logs[i].number in NumbersOf(logs[..Released(logs, upTo, ok)])
  {
    var n := Released(logs, upTo, ok);
    forall i | 0 <= i < n ensures logs[i].number in NumbersOf(logs[..n]) {
      assert logs[..n][i] in logs[..n];
    }
    assert Increasing(logs) ==> forall i :: CountUpTo(logs, upTo) <= i < |logs| ==> logs[i].number > upTo;
  }

  /** Logs past the sync had their flags down already. */
  lemma ClearedRest(all: seq<Log>, k: nat, n: nat)
    requires n <= k <= |all| && forall i :: k <= i < |all| ==> !all[i].gettingSynced
    ensures Cleared(all[n..k]) + all[k..] == Cleared(all[n..])
  {
  }

  lemma PastSync(all: seq<Log>, upTo: nat, k: nat)
    requires k <= |all| && Increasing(all) && (k < |all| ==> all[k].number > upTo)
    requires forall i :: 0 <= i < |all| ==> (all[i].gettingSynced <==> all[i].number <= upTo)
    ensures forall i :: k <= i < |all| ==> !all[i].gettingSynced
  {
    forall i | k <= i < |all| ensures !all[i].gettingSynced {
      assert k < i ==> all[k].number < all[i].number;
    }
  }

  lemma NumbersSplit(all: seq<Log>, n: nat)
    requires n <= |all|
    ensures NumbersOf(all) == NumbersOf(all[..n]) + NumbersOf(all[n..])
  {
    assert all == all[..n] + all[n..];
    assert forall l :: l in all <==> l in all[..n] || l in all[n..];
  }

  lemma NumbersBefore(all: seq<Log>, n: nat, m: nat)
    requires Increasing(all) && n < |all| && m in NumbersOf(all[..n])
    ensures all[0].number <= m < all[n].number
  {
    var i :| 0 <= i < n && all[..n][i].number == m;
  }

  /** What remains is open, in order and unflagged. */
  lemma RestIsOpen(all: seq<Log>, freed: set<nat>, current: nat, n: nat, rest: seq<Log>)
    requires WritersOk(all, freed, current) && n < |all| && rest == Cleared(all[n..])
    ensures FlagsOk(rest, None, current) && WritersOk(rest, freed + NumbersOf(all[..n]), current)
    ensures freed !! NumbersOf(all[..n])
  {
    forall m | m in NumbersOf(all[..n]) ensures all[0].number <= m < rest[0].number {
      NumbersBefore(all, n, m);
    }
    assert all[0].number <= rest[0].number;
    assert forall i :: 0 <= i < |rest| ==> rest[i].number == all[n..][i].number == all[n + i].number;
  }

  /** What was released is accounted for. */
  lemma RestIsThere(all: seq<Log>, freed: set<nat>, created: set<nat>, n: nat, rest: seq<Log>)
    requires AllThere(all, freed, created) && n < |all| && rest == Cleared(all[n..])
    ensures AllThere(rest, freed + NumbersOf(all[..n]), created)
  {
    NumbersSame(rest, all[n..]);
    NumbersSplit(all, n);
  }

  /** The loop when the sync owns some logs. */
  method SettleOwned(all: seq<Log>, ghost freed: set<nat>, ghost created: set<nat>, ghost current: nat, ghost active: Option<Sync>,
                     upTo: nat, ok: bool) returns (rest: seq<Log>, released: set<nat>)
    requires FlagsOk(all, active, current) && WritersOk(all, freed, current) && AllThere(all, freed, created)
    requires all[0].number <= upTo && active.Some? && active.value.upTo == upTo
    ensures FlagsOk(rest, None, current) && WritersOk(rest, freed + released, current) && AllThere(rest, freed + released, created)
    ensures freed !! released
    ensures released == NumbersOf(all[..Released(all, upTo, ok)])
    ensures rest == Cleared(all[Released(all, upTo, ok)..])
  {
    PastSync(all, upTo, CountUpTo(all, upTo));
    rest, released := Settle(all, upTo, ok);
    RestIsOpen(all, freed, current, Released(all, upTo, ok), rest);
    RestIsThere(all, freed, created, Released(all, upTo, ok), rest);
  }

  // ------------------------------------------------------------------
  // Switching and releasing
  // ------------------------------------------------------------------

  lemma GrowLast(alive: seq<AliveLog>, size: nat)
    requires alive != []
    ensures var last := |alive| - 1;
            TotalSize(alive[last := AliveLog(alive[last].number, alive[last].size + size)]) == TotalSize(alive) + size
  {
    var last := |alive| - 1;
    var grown := AliveLog(alive[last].number, alive[last].size + size);
    assert alive == alive[..last] + [alive[last]] && alive[last := grown] == alive[..last] + [grown];
    TotalSizeAppend(alive[..last], alive[last]);
    TotalSizeAppend(alive[..last], grown);
  }

  lemma OneMore(logs: seq<Log>, freed: set<nat>, created: set<nat>, n: nat)
    requires AllThere(logs, freed, created)
    ensures AllThere(logs + [Log(n, false)], freed, created + {n})
  {
    var more := logs + [Log(n, false)];
    assert more[|logs|].number == n;
    forall m ensures HasNumber(more, m) <==> HasNumber(logs, m) || m == n {
      if HasNumber(logs, m) {
        var i :| 0 <= i < |logs| && logs[i].number == m;
        assert more[i].number == m;
      }
    }
  }

  /** A new current log joins open and unflagged. */
  lemma NewLog(logs: seq<Log>, freed: set<nat>, created: set<nat>, current: nat, active: Option<Sync>, n: nat)
    requires FlagsOk(logs, active, current) && WritersOk(logs, freed, current) && AllThere(logs, freed, created)
    requires n > current && (active.Some? ==> !active.value.byWriter)
    ensures var more := logs + [Log(n, false)];
            FlagsOk(more, active, n) && WritersOk(more, freed, n) && AllThere(more, freed, created + {n})
  {
    OneMore(logs, freed, created, n);
  }

  lemma NewAlive(alive: seq<AliveLog>, current: nat, n: nat)
    requires AliveOrdered(alive, current) && n > current
    ensures AliveOrdered(alive + [AliveLog(n, 0)], n) && TotalSize(alive + [AliveLog(n, 0)]) == TotalSize(alive)
  {
    TotalSizeAppend(alive, AliveLog(n, 0));
  }

  /** The first d logs were released: all below the number and none being synced. */
  ghost predicate Releases(all: seq<Log>, was: set<nat>, freed: set<nat>, minLogNumber: nat, d: int) {
    && 0 <= d <= |all| && freed == was + NumbersOf(all[..d])
    && (forall i :: 0 <= i < d ==> all[i].number < minLogNumber && !all[i].gettingSynced)
  }

  lemma ReleasesOne(all: seq<Log>, was: set<nat>, freed: set<nat>, minLogNumber: nat, d: nat)
    requires Releases(all, was, freed, minLogNumber, d) && d < |all|
    requires all[d].number < minLogNumber && !all[d].gettingSynced
    ensures Releases(all, was, freed + {all[d].number}, minLogNumber, d + 1)
  {
    assert all[..d + 1] == all[..d] + [all[d]];
    assert forall l :: l in all[..d + 1] <==> l in all[..d] || l == all[d];
  }

  /** Releasing the oldest log, which is neither current nor being synced. */
  lemma PopFirst(logs: seq<Log>, freed: set<nat>, created: set<nat>, current: nat, active: Option<Sync>)
    requires FlagsOk(logs, active, current) && WritersOk(logs, freed, current) && AllThere(logs, freed, created)
    requires logs[0].number < current && !logs[0].gettingSynced
    ensures |logs| > 1 && FlagsOk(logs[1..], active, current) && WritersOk(logs[1..], freed + {logs[0].number}, current)
    ensures AllThere(logs[1..], freed + {logs[0].number}, created)
  {
    assert logs == [logs[0]] + logs[1..];
    assert forall l :: l in logs <==> l == logs[0] || l in logs[1..];
  }

  /** A syncing write that failed before raising its flags still marks the logs up to the current one. That
      keeps the flags right exactly when nobody else is syncing. */
  lemma UnownedMark(logs: seq<Log>, active: Option<Sync>, current: nat)
    requires FlagsOk(logs, active, current) && logs != [] && logs[|logs| - 1].number == current && Increasing(logs)
    ensures Released(logs, current, false) == 0
    ensures FlagsOk(Cleared(logs[Released(logs, current, false)..]), active, current) <==> active == None
  {
    var down := Cleared(logs[0..]);
    assert logs[0..] == logs && !down[0].gettingSynced;
  }

  // ------------------------------------------------------------------
  // The closing assertion of MarkLogsSynced
  // ------------------------------------------------------------------

  /** The assertion after the loop, that one log remains, holds exactly when the sync failed with a single
      log, or succeeded with at most one log newer than it covers. */
  lemma ClosingAssertion(logs: seq<Log>, upTo: nat, ok: bool)
    requires Increasing(logs) && logs != []
    ensures |Cleared(logs[Released(logs, upTo, ok)..])| == 1 <==>
            |logs| == 1 || (ok && forall i :: 0 <= i < |logs| - 1 ==> logs[i].number <= upTo)
  {
    var k := CountUpTo(logs, upTo);
    forall i | k <= i < |logs| ensures logs[i].number > upTo {
      assert k < i ==> logs[k].number < logs[i].number;
    }
  }

  /** It fails in a correct run: two memtable switches while SyncWAL is syncing. */
  method TwoSwitchesDuringSync() returns (remaining: nat)
    ensures remaining == 2
  {
    var wal := new Wal(1);
    wal.AddRecord(10);
    wal.SyncWALBegin(1);
    wal.SwitchMemtable(2);
    wal.AddRecord(10);
    wal.SwitchMemtable(3);
    ghost var three := wal.logs;
    assert CountUpTo(three, 1, 1) == 1;
    assert three[0].number == 1 && |three| == 3 && Released(three, 1, true) == 1;
    wal.MarkLogsSynced(1, false, true);
    remaining := |wal.logs|;
  }
}
