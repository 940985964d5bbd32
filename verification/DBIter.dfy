/** The user-facing iterator: a bidirectional cursor that hides versions, tombstones and merges
    behind direction changes and reseek shortcuts, proved to be a plain cursor over the visible
    map. */
module DBIter {
  import opened DbFormat
  import opened VisibleMap

  datatype Direction = Forward | Reverse

  /** Under a merge operand the next older version is not a SingleDelete. */
  ghost predicate NoSingleDeleteUnderMerge(v: View) {
    forall i :: 0 <= i < |v.es| - 1 && v.es[i].kind == Merge && v.es[i].seqno <= v.sequence ==>
      !(v.es[i + 1].key == v.es[i].key && v.es[i + 1].kind == SingleDeletion)
  }

  predicate ZeroDeletion(e: Entry, k: UserKey) {
    e.key == k && e.seqno == 0 && e.kind == Deletion
  }

  /** No tombstone with sequence 0 and a key below the bound lies under another visible version of its key. */
  ghost predicate NoBuriedDeletion(v: View) {
    forall i, j :: 0 <= i < j < |v.es| && v.es[i].seqno <= v.sequence && v.InBound(v.es[i].key) ==>
      !ZeroDeletion(v.es[j], v.es[i].key)
  }

  const UINT64_MAX: nat := 0xFFFF_FFFF_FFFF_FFFF

  class DBIter {
    const v: View                      // internal iterator contents, sequence_, bound, operator
    const prefixExtractor: bool
    var maxSkip: nat
    var pos: int                       // internal iterator; invalid when -1 or |v.es|
    var direction: Direction
    var valid: bool
    var savedKey: UserKey
    var savedValue: Bytes
    var currentEntryIsMerged: bool
    ghost var cur: nat                 // index of the shown version the iterator stands on

    /** What the iterator may assume about its contents. */
    ghost predicate Fed()
      reads this`maxSkip
    {
      && Sorted(v.es) && (forall i :: 0 <= i < |v.es| ==> v.es[i].seqno <= MAX_SEQUENCE_NUMBER)
      && v.sequence <= MAX_SEQUENCE_NUMBER
      && NoSingleDeleteUnderMerge(v)
      && (maxSkip == 0 ==> NoBuriedDeletion(v))
    }

    predicate IterValid()
      reads this`pos
    {
      0 <= pos < |v.es|
    }

    /** Standing on shown version i while moving forward. A plain value is read through the internal
        iterator; a merged one has already consumed the versions it was built from. */
    ghost predicate AtForward(i: nat)
      reads this
    {
      && v.Shown(i) && savedKey == v.es[i].key
      && (if currentEntryIsMerged then
            && i < pos <= |v.es| && savedValue == v.ValueOf(i)
            && (forall j :: i <= j < pos ==> v.es[j].key == v.es[i].key)
          else pos == i && v.es[i].kind == Value)
    }

    /** Standing on shown version i while moving backward: just before every version of its key. */
    ghost predicate AtReverse(i: nat)
      reads this
    {
      && v.Shown(i) && savedKey == v.es[i].key && savedValue == v.ValueOf(i)
      && BeforeKey(i)
    }

    /** The internal iterator is on the last entry before the versions of es[i].key. */
    ghost predicate BeforeKey(i: int)
      reads this`pos
    {
      && 0 <= i < |v.es| && -1 <= pos < i
      && (forall j :: pos < j <= i ==> v.es[j].key == v.es[i].key)
      && (pos >= 0 ==> v.es[pos].key < v.es[i].key)
    }

    ghost predicate Valid()
      reads this
    {
      && Fed() && -1 <= pos <= |v.es|
      && (valid ==> if direction == Forward then AtForward(cur) else AtReverse(cur))
    }

    /** The abstract position: an index into the visible map. */
    ghost function Cursor(): (c: nat)
      reads this
      requires Valid() && valid
      ensures c < |v.All()|
    {
      PlaceOf(v, cur);
      |v.Pairs(cur)|
    }

    constructor (v: View, maxSkip: nat, prefixExtractor: bool)
      ensures this.v == v && this.maxSkip == maxSkip && this.prefixExtractor == prefixExtractor
      ensures !valid && direction == Forward && !currentEntryIsMerged && (Fed() ==> Valid())
    {
      this.v, this.maxSkip, this.prefixExtractor := v, maxSkip, prefixExtractor;
      pos, direction, valid, currentEntryIsMerged := -1, Forward, false, false;
      savedKey, savedValue, cur := 0.0, [], 0;
    }

    // ----------------------------------------------------------------
    // Reading the current entry
    // ----------------------------------------------------------------

    /** key() and value() present the pair at the cursor. */
    method Current() returns (key: UserKey, value: Bytes)
      requires Valid() && valid
      ensures (key, value) == v.All()[Cursor()]
    {
      PlaceOf(v, cur);
      key := savedKey;
      value := if direction == Forward && !currentEntryIsMerged then v.es[pos].value else savedValue;
    }

    // ----------------------------------------------------------------
    // Moving forward
    // ----------------------------------------------------------------

    /** Merges from the newest operand at pos towards older versions. */
    method MergeValuesNewToOld()
      requires IterValid() && v.es[pos].kind == Merge && savedKey == v.es[pos].key
      modifies this`pos, this`savedValue
      ensures old(pos) < pos <= |v.es|
      ensures savedValue == v.ValueOf(old(pos))
      ensures forall j :: old(pos) <= j < pos ==> v.es[j].key == v.es[old(pos)].key
    {
      ghost var start := pos;
      var operands := [v.es[pos].value];
      pos := pos + 1;
      OperandsOne(v, start);
      while pos < |v.es|
        invariant start < pos <= |v.es|
        invariant forall j :: start <= j < pos ==> v.es[j].key == v.es[start].key && v.es[j].kind == Merge
        invariant operands == v.Operands(start, pos)
      {
        if v.es[pos].key != savedKey {
          break;
        } else if v.es[pos].Tombstone() {
          MergeEndIs(v, start, pos);
          savedValue := v.merge(savedKey, None, operands);
          pos := pos + 1;
          return;
        } else if v.es[pos].kind == Value {
          MergeEndIs(v, start, pos);
          savedValue := v.merge(savedKey, Some(v.es[pos].value), operands);
          pos := pos + 1;
          return;
        } else {
          operands := [v.es[pos].value] + operands;
          OperandsExtend(v, start, pos);
        }
        pos := pos + 1;
      }
      MergeEndIs(v, start, pos);
      savedValue := v.merge(savedKey, None, operands);
    }
  
    /** Yields the entry under the internal iterator. */
    method StandHere()
      requires v.Shown(pos) && !currentEntryIsMerged
      modifies this`pos, this`valid, this`savedKey, this`savedValue, this`currentEntryIsMerged, this`cur
      ensures valid && cur == old(pos) && AtForward(cur)
    {
      valid, cur := true, pos;
      savedKey := v.es[pos].key;
      if v.es[pos].kind == Merge {
        currentEntryIsMerged := true;
        MergeValuesNewToOld();
      }
    }

    /** Loops until an acceptable entry or the end. */
    method FindNextUserEntryInternal(skip: bool)
      requires Fed() && IterValid() && direction == Forward
      requires Searching(v, Goal(pos, skip, savedKey), pos, skip, savedKey)
      modifies this`pos, this`valid, this`savedKey, this`savedValue, this`currentEntryIsMerged, this`cur
      ensures -1 <= pos <= |v.es|
      ensures valid ==> AtForward(cur) && Reaches(v, Goal(old(pos), skip, old(savedKey)), cur)
      ensures !valid ==> Passed(v, Goal(old(pos), skip, old(savedKey)), |v.es|)
    {
      currentEntryIsMerged := false;
      var skipping, found := skip, false;
      var numSkipped: nat := 0;
      ghost var goal := Goal(pos, skip, savedKey);
      while pos < |v.es|
        invariant 0 <= pos <= |v.es| && numSkipped <= maxSkip && !currentEntryIsMerged
        invariant Searching(v, goal, pos, skipping, savedKey)
        decreases |v.es| - pos, numSkipped
      {
        if !v.InBound(v.es[pos].key) {
          break;
        }
        found, skipping, numSkipped := SearchRound(goal, skipping, numSkipped);
        if found {
          return;
        }
      }
      SearchEnds(v, goal, pos, skipping, savedKey);
      valid := false;
    }

    /** One round of the loop: yield the entry, or pass it and move on. */
    method SearchRound(ghost goal: Goal, skipping: bool, numSkipped: nat)
      returns (found: bool, skipping': bool, numSkipped': nat)
      requires Sorted(v.es) && (maxSkip == 0 ==> NoBuriedDeletion(v)) && numSkipped <= maxSkip
      requires IterValid() && v.InBound(v.es[pos].key) && !currentEntryIsMerged
      requires Searching(v, goal, pos, skipping, savedKey)
      modifies this`pos, this`valid, this`savedKey, this`savedValue, this`currentEntryIsMerged, this`cur
      ensures found ==> valid && AtForward(cur) && Reaches(v, goal, cur)
      ensures !found ==> numSkipped' <= maxSkip && !currentEntryIsMerged && 0 <= pos <= |v.es|
      ensures !found ==> Searching(v, goal, pos, skipping', savedKey)
      ensures !found ==> old(pos) < pos || (old(pos) == pos && numSkipped' < numSkipped)
    {
      var e := v.es[pos];
      found, skipping', numSkipped' := false, skipping, numSkipped;
      if e.seqno > v.sequence {
        SearchPassesUnseen(v, goal, pos, skipping, savedKey);
        pos := pos + 1;
      } else if skipping && e.key <= savedKey {
        numSkipped' := PassSkipped(goal, numSkipped);
      } else if e.Tombstone() {
        SearchPassesTombstone(v, goal, pos, skipping, savedKey);
        savedKey, skipping', numSkipped' := e.key, true, 0;
        pos := pos + 1;
      } else {
        SearchFinds(v, goal, pos, skipping, savedKey);
        StandHere();
        found := true;
      }
    }

    /** Passes a version of a key to skip, seeking past the key once sequential scanning took too long. */
    method PassSkipped(ghost goal: Goal, numSkipped: nat) returns (numSkipped': nat)
      requires Sorted(v.es) && (maxSkip == 0 ==> NoBuriedDeletion(v)) && numSkipped <= maxSkip
      requires IterValid() && Searching(v, goal, pos, true, savedKey) && v.es[pos].key <= savedKey
      requires v.InBound(v.es[pos].key) && v.es[pos].seqno <= v.sequence
      modifies this`pos
      ensures (pos, numSkipped') == PassTo(v.es, maxSkip, old(pos), numSkipped, savedKey)
      ensures numSkipped' <= maxSkip && 0 <= pos <= |v.es| && Searching(v, goal, pos, true, savedKey)
      ensures old(pos) < pos || (old(pos) == pos && numSkipped' < numSkipped)
    {
      SearchPassesSkipped(v, goal, pos, savedKey);
      SearchReseeks(v, goal, pos, savedKey);
      ScanStaysIff(v.es, maxSkip, pos, numSkipped, savedKey);
      NotBuried(v, goal, pos, savedKey);
      numSkipped' := numSkipped + 1;
      if numSkipped' > maxSkip {
        numSkipped' := 0;
        pos := SeekFrom(v.es, SeekKey(savedKey, 0, Deletion), 0);
      } else {
        pos := pos + 1;
      }
    }

    // ----------------------------------------------------------------
    // Moving backward
    // ----------------------------------------------------------------

    /** Leaves the versions of the saved key, the nearest of which is at `start` with only unseen
        versions of later keys up to the internal iterator. */
    method FindPrevUserKey(ghost start: nat)
      requires Sorted(v.es) && (forall i :: 0 <= i < |v.es| ==> v.es[i].seqno <= MAX_SEQUENCE_NUMBER)
      requires start <= pos < |v.es| && v.es[start].key == savedKey
      requires forall j :: start < j <= pos ==> v.es[j].key > savedKey && v.es[j].seqno > v.sequence
      modifies this`pos
      ensures BeforeKey(start)
    {
      var numSkipped := 0;
      while pos >= 0 && (v.es[pos].key == savedKey || (v.es[pos].key > savedKey && v.es[pos].seqno > v.sequence))
        invariant -1 <= pos < |v.es|
        invariant forall j :: start < j <= pos ==> v.es[j].key > savedKey && v.es[j].seqno > v.sequence
        invariant forall j :: pos < j <= start ==> v.es[j].key == savedKey
        decreases pos
      {
        if v.es[pos].key == savedKey {
          if numSkipped >= maxSkip {
            numSkipped := 0;
            SeekFindsFirst(v.es, savedKey);
            pos := SeekFrom(v.es, SeekKey(savedKey, MAX_SEQUENCE_NUMBER, ValueTypeForSeek), 0);
          } else {
            numSkipped := numSkipped + 1;
          }
        }
        pos := pos - 1;
      }
    }

    /** The versions from pos + 1 up to hi belong to the saved key. */
    ghost predicate WithinKey(hi: nat)
      reads this`pos, this`savedKey
    {
      && -1 <= pos < hi <= |v.es|
      && (forall j :: pos < j < hi ==> v.es[j].key == savedKey)
    }

    /** Resolves the saved key, whose oldest version is at pos. */
    method FindValueForCurrentKey() returns (found: bool)
      requires Sorted(v.es) && IterValid() && v.es[pos].key == savedKey && KeyEnd(v, pos)
      modifies this`pos, this`valid, this`savedValue, this`cur
      ensures WithinKey(old(pos) + 1)
      ensures found == valid && (found <==> KeyShown(v, savedKey))
      ensures found ==> Resolves(v, savedKey, cur) && cur <= old(pos)
      ensures found && !SingleDeleteUnder(v, cur) ==> savedValue == v.ValueOf(cur)
    {
      ghost var hi := pos + 1;
      var tooMany, operands, lastNotMerge, lastKind, m := ScanKey();
      if tooMany {
        found := FindValueForCurrentKeyUsingSeek();
        SameKey(v, pos, hi);
      } else {
        found := FinishScan(operands, lastNotMerge, lastKind, m, hi);
      }
    }

    /** Turns what the scan gathered into a value. */
    method FinishScan(operands: seq<Bytes>, lastNotMerge: ValueType, lastKind: ValueType, ghost m: nat, ghost hi: nat)
      returns (found: bool)
      requires Sorted(v.es) && 0 < hi && WithinKey(hi) && v.es[hi - 1].key == savedKey && KeyEnd(v, hi - 1)
      requires Scanned(v, pos + 1, m, hi, operands, lastNotMerge, lastKind, savedValue)
      requires forall j :: pos < j < hi ==> v.es[j].seqno <= v.sequence
      requires pos >= 0 ==> v.es[pos].seqno > v.sequence || v.es[pos].key != savedKey
      modifies this`valid, this`savedValue, this`cur
      ensures found == valid && (found <==> KeyShown(v, savedKey))
      ensures found ==> Resolves(v, savedKey, cur) && cur < hi
      ensures found && !SingleDeleteUnder(v, cur) ==> savedValue == v.ValueOf(cur)
      ensures found && TellsAbsence(v.merge) ==> (savedValue == v.ValueOf(cur) <==> !SingleDeleteUnder(v, cur))
    {
      var value;
      found, value := Gathered(v, pos + 1, m, hi, operands, lastNotMerge, lastKind, savedValue, savedKey);
      valid := found;
      if found {
        savedValue, cur := value, pos + 1;
      }
    }

    /** Scans the visible versions of the saved key from the oldest up, giving up after maxSkip. */
    method ScanKey() returns (tooMany: bool, operands: seq<Bytes>, lastNotMerge: ValueType, lastKind: ValueType, ghost m: nat)
      requires IterValid() && v.es[pos].key == savedKey
      modifies this`pos, this`savedValue
      ensures WithinKey(old(pos) + 1)
      ensures tooMany ==> IterValid() && v.es[pos].key == savedKey && v.es[pos].seqno <= v.sequence && old(pos) - pos >= maxSkip
      ensures !tooMany ==> Scanned(v, pos + 1, m, old(pos) + 1, operands, lastNotMerge, lastKind, savedValue)
      ensures forall j :: pos < j <= old(pos) ==> v.es[j].seqno <= v.sequence
      ensures !tooMany && pos >= 0 ==> v.es[pos].seqno > v.sequence || v.es[pos].key != savedKey
    {
      ghost var hi := pos + 1;
      tooMany, operands, m := false, [], hi;
      lastNotMerge, lastKind := Deletion, Deletion;
      var numSkipped := 0;
      while pos >= 0 && v.es[pos].seqno <= v.sequence && v.es[pos].key == savedKey
        invariant WithinKey(hi)
        invariant Scanned(v, pos + 1, m, hi, operands, lastNotMerge, lastKind, savedValue)
        invariant forall j :: pos < j < hi ==> v.es[j].seqno <= v.sequence
        invariant numSkipped == hi - 1 - pos
        decreases pos
      {
        if numSkipped >= maxSkip {
          tooMany := true;
          return;
        }
        lastKind := v.es[pos].kind;
        if lastKind == Merge {
          operands := operands + [v.es[pos].value];
        } else {
          operands := [];
          m := pos;
          lastNotMerge := lastKind;
          if lastKind == Value {
            savedValue := v.es[pos].value;
          }
        }
        pos := pos - 1;
        numSkipped := numSkipped + 1;
      }
    }

    /** Resolves the saved key by seeking to its newest visible version; one is known to exist. */
    method FindValueForCurrentKeyUsingSeek() returns (found: bool)
      requires Sorted(v.es) && IterValid() && v.es[pos].key == savedKey && v.es[pos].seqno <= v.sequence
      modifies this`pos, this`valid, this`savedValue, this`cur
      ensures IterValid() && v.es[pos].key == savedKey
      ensures found == valid && (found <==> KeyShown(v, savedKey))
      ensures found ==> Resolves(v, savedKey, cur) && cur <= old(pos)
      ensures found ==> savedValue == v.ValueOf(cur)
    {
      SeekFindsNewest(v, savedKey);
      var top := SeekFrom(v.es, SeekKey(savedKey, v.sequence, ValueTypeForSeek), 0);
      TopDecides(v, savedKey, top);
      assert top <= pos;
      pos, cur := top, top;
      if v.es[pos].kind != Merge {
        found := v.es[pos].kind == Value;
        if found {
          savedValue := v.es[pos].value;
        }
        valid := found;
        return;
      }
      MergeFromTop();
      valid, found := true, true;
    }

    /** Collects the operands from the newest at pos towards older versions and merges them. */
    method MergeFromTop()
      requires IterValid() && v.es[pos].key == savedKey && v.es[pos].kind == Merge
      requires pos == SeekFrom(v.es, SeekKey(savedKey, v.sequence, ValueTypeForSeek), 0)
      modifies this`pos, this`savedValue
      ensures IterValid() && old(pos) <= pos && v.es[pos].key == savedKey
      ensures savedValue == v.ValueOf(old(pos))
    {
      ghost var top := pos;
      var operands: seq<Bytes> := [];
      while pos < |v.es| && v.es[pos].key == savedKey && v.es[pos].kind == Merge
        invariant top <= pos <= |v.es|
        invariant forall j :: top <= j < pos ==> v.es[j].key == savedKey && v.es[j].kind == Merge
        invariant operands == v.Operands(top, pos)
      {
        OperandsExtend(v, top, pos);
        operands := [v.es[pos].value] + operands;
        pos := pos + 1;
      }
      MergeEndIs(v, top, pos);
      if pos == |v.es| || v.es[pos].key != savedKey || v.es[pos].Tombstone() {
        savedValue := v.merge(savedKey, None, operands);
        if pos == |v.es| || v.es[pos].key != savedKey {
          pos := SeekFrom(v.es, SeekKey(savedKey, v.sequence, ValueTypeForSeek), 0);
        }
      } else {
        savedValue := v.merge(savedKey, Some(v.es[pos].value), operands);
      }
    }

    /** Resolves keys from the one under the internal iterator backwards until one is shown. */
    method PrevInternal()
      requires Fed() && -1 <= pos < |v.es|
      requires KeyEnd(v, pos) && (pos >= 0 ==> v.InBound(v.es[pos].key))
      modifies this`pos, this`valid, this`savedKey, this`savedValue, this`cur
      ensures -1 <= pos < |v.es|
      ensures valid ==> AtReverse(cur) && cur <= old(pos) && NoneShown(v, cur + 1, old(pos) + 1)
      ensures !valid ==> NoneShown(v, 0, old(pos) + 1)
    {
      ghost var start := pos;
      while pos >= 0
        invariant -1 <= pos <= start && KeyEnd(v, pos)
        invariant NoneShown(v, pos + 1, start + 1)
        decreases pos
      {
        ghost var last := pos;
        savedKey := v.es[pos].key;
        var found := FindValueForCurrentKey();
        LeaveKey(last);
        if found {
          ShownIsUnique(v, cur, last);
          NoneUnder(v, cur);
          ResolvedIsShown(v, pos, cur, last);
          return;
        }
        assert forall j :: pos < j <= last && v.Shown(j) ==> Resolves(v, savedKey, j);
      }
      valid := false;
    }

    /** From anywhere within the versions of the saved key, or just before them, moves before them. */
    method LeaveKey(ghost last: nat)
      requires Sorted(v.es) && (forall i :: 0 <= i < |v.es| ==> v.es[i].seqno <= MAX_SEQUENCE_NUMBER)
      requires last < |v.es| && v.es[last].key == savedKey && WithinKey(last + 1)
      modifies this`pos
      ensures BeforeKey(last)
    {
      if IterValid() && v.es[pos].key == savedKey {
        FindPrevUserKey(pos);
      }
    }

    /** Turns a forward position into "before every version of the current key". */
    method ReverseToBackward()
      requires Valid() && valid && direction == Forward
      modifies this`pos, this`direction
      ensures BeforeKey(cur) && direction == Reverse
    {
      if currentEntryIsMerged {
        if !IterValid() {
          pos := |v.es| - 1;
        }
        while pos >= 0 && v.es[pos].key > savedKey
          invariant cur <= pos < |v.es| && pos <= old(pos)
          invariant forall j :: cur <= j < pos ==> v.es[j].key == savedKey
          decreases pos
        {
          pos := pos - 1;
        }
      }
      ghost var at := pos;
      FindPrevUserKey(pos);
      StrictlyBefore(v, pos, cur, at);
      direction := Reverse;
    }

    /** Leaves the internal iterator within or just past the versions of the current key. */
    method ReverseToForward()
      requires Valid() && valid
      modifies this`pos, this`direction
      ensures direction == Forward && LeavesKey(v, cur, pos)
    {
      if direction == Reverse {
        if IterValid() {
          FindNextUserKey();
        }
        direction := Forward;
        if !IterValid() {
          pos := 0;
        }
      }
    }

    /** Moves forward again onto the first version of the current key. */
    method FindNextUserKey()
      requires Sorted(v.es) && IterValid() && (exists i :: pos < i < |v.es| && v.es[i].key == savedKey)
      modifies this`pos
      ensures old(pos) <= pos < |v.es| && v.es[pos].key == savedKey
      ensures forall j :: old(pos) <= j < pos ==> v.es[j].key != savedKey
    {
      ghost var i :| pos < i < |v.es| && v.es[i].key == savedKey;
      while pos < |v.es| && v.es[pos].key != savedKey
        invariant old(pos) <= pos <= i
        invariant forall j :: old(pos) <= j < pos ==> v.es[j].key != savedKey
      {
        pos := pos + 1;
      }
    }

    // ----------------------------------------------------------------
    // The interface
    // ----------------------------------------------------------------

    method SeekToFirst()
      requires Valid()
      modifies this
      ensures Valid() && (valid <==> |v.All()| > 0)
      ensures valid ==> Cursor() == 0
    {
      if prefixExtractor {
        maxSkip := UINT64_MAX;
      }
      direction, savedValue := Forward, [];
      pos := 0;
      if IterValid() {
        FindNextUserEntryInternal(false);
      } else {
        valid := false;
      }
      PassedMeansNone(v, Goal(0, false, old(savedKey)), if valid then cur else |v.es|);
      FirstPlace(v, if valid then cur else |v.es|);
    }

    method Seek(target: UserKey)
      requires Valid()
      modifies this
      ensures Valid()
      ensures valid <==> exists p :: 0 <= p < |v.All()| && v.All()[p].0 >= target
      ensures valid ==> v.All()[Cursor()].0 >= target
      ensures valid ==> forall p :: 0 <= p < Cursor() ==> v.All()[p].0 < target
    {
      SeekFindsNewest(v, target);
      ghost var from := SearchFrom(target);
      PassedMeansNone(v, Goal(from, false, target), if valid then cur else |v.es|);
      SeekPlace(v, target, from, if valid then cur else |v.es|);
    }

    /** Seeks the internal iterator and searches on from there. */
    method SearchFrom(target: UserKey) returns (ghost from: nat)
      requires Fed()
      modifies this
      ensures Valid() && from == SeekFrom(v.es, SeekKey(target, v.sequence, ValueTypeForSeek), 0)
      ensures valid ==> direction == Forward && Reaches(v, Goal(from, false, target), cur)
      ensures !valid ==> Passed(v, Goal(from, false, target), |v.es|)
    {
      savedKey := target;
      SeekFindsNewest(v, target);
      pos := SeekFrom(v.es, SeekKey(target, v.sequence, ValueTypeForSeek), 0);
      from := pos;
      if IterValid() {
        direction, savedValue := Forward, [];
        FindNextUserEntryInternal(false);
      } else {
        valid := false;
      }
    }

    method SeekToLast()
      requires Valid()
      modifies this
      ensures Valid() && (valid <==> |v.All()| > 0)
      ensures valid ==> Cursor() == |v.All()| - 1
      ensures valid ==> LastBelow(v, v.All()[Cursor()].0)
    {
      if prefixExtractor {
        maxSkip := UINT64_MAX;
      }
      direction, savedValue := Reverse, [];
      var found := SeekBeforeUpper();
      if found {
        PrevInternal();
      } else {
        valid := false;
      }
      if valid {
        LastPlace(v, cur);
        LastIsLastBelow(v);
      } else {
        FirstPlace(v, |v.es|);
      }
    }

    /** Positions the internal iterator on the last entry below the upper bound. It tells false when
        there is none because the first entry is already at or past the bound. */
    method SeekBeforeUpper() returns (found: bool)
      requires Sorted(v.es) && (forall i :: 0 <= i < |v.es| ==> v.es[i].seqno <= MAX_SEQUENCE_NUMBER)
      modifies this`pos, this`savedKey
      ensures -1 <= pos < |v.es| && KeyEnd(v, pos) && (!found ==> pos == -1)
      ensures forall j :: 0 <= j < |v.es| ==> (j <= pos <==> v.InBound(v.es[j].key))
    {
      pos := |v.es| - 1;
      if IterValid() && v.upper.Some? {
        savedKey := v.upper.value;
        SeekFindsFirst(v.es, savedKey);
        pos := SeekFrom(v.es, SeekKey(savedKey, MAX_SEQUENCE_NUMBER, ValueTypeForSeek), 0);
        if !IterValid() {
          pos := |v.es| - 1;
        } else {
          pos := pos - 1;
          if !IterValid() {
            return false;
          }
        }
      }
      found := true;
    }

    method Next()
      requires Valid() && valid
      modifies this
      ensures Valid()
      ensures valid <==> old(Cursor()) + 1 < |v.All()|
      ensures valid ==> Cursor() == old(Cursor()) + 1
    {
      ReverseToForward();
      ghost var from, here := pos, cur;
      if !IterValid() {
        valid := false;
      } else {
        SkipFrom(v, cur, pos);
        FindNextUserEntryInternal(true);
      }
      NextPlace(v, here, from, if valid then cur else |v.es|);
    }

    method Prev()
      requires Valid() && valid
      modifies this
      ensures Valid()
      ensures valid <==> old(Cursor()) > 0
      ensures valid ==> Cursor() == old(Cursor()) - 1
    {
      if direction == Forward {
        ReverseToBackward();
      }
      ghost var from, here := pos, cur;
      PrevInternal();
      PrevPlace(v, here, from, if valid then cur else -1);
    }
  }

  /** k is less than the bound, and no key that the reader sees without the bound lies between the two. */
  ghost predicate LastBelow(v: View, k: UserKey) {
    && (v.upper.Some? ==> k < v.upper.value)
    && forall pair :: pair in v.(upper := None).All() ==> pair.0 <= k || (v.upper.Some? && v.upper.value <= pair.0)
  }

  lemma LastIsLastBelow(v: View)
    requires Sorted(v.es) && v.All() != []
    ensures LastBelow(v, v.All()[|v.All()| - 1].0)
  {
    var k, all, n := v.All()[|v.All()| - 1].0, v.(upper := None).All(), |v.All()|;
    if v.upper.Some? {
      n := BoundedIsPart(v, v.upper.value);
    } else {
      assert v == v.(upper := None);
    }
    forall p | 0 <= p < |all| ensures all[p].0 <= k || (v.upper.Some? && v.upper.value <= all[p].0) {
      if p < n - 1 {
        AllIncreasing(v, p, n - 1);
      }
    }
  }

  // ------------------------------------------------------------------
  // The forward search
  // ------------------------------------------------------------------

  /** A search starts at position `from` and, when `skip`, must pass the keys up to k0. */
  datatype Goal = Goal(from: nat, skip: bool, k0: UserKey)

  /** A search with this goal may stop at shown version i. */
  ghost predicate Accepts(v: View, g: Goal, i: int) {
    v.Shown(i) && g.from <= i && (g.skip ==> v.es[i].key > g.k0)
  }

  ghost predicate Passed(v: View, g: Goal, to: int) {
    forall j :: 0 <= j < to ==> !Accepts(v, g, j)
  }

  /** i is the first version the search may stop at. */
  ghost predicate Reaches(v: View, g: Goal, i: int) {
    Accepts(v, g, i) && Passed(v, g, i)
  }

  /** Every visible version behind pos belongs to a key that is being skipped, or to an earlier key
      than the entry ahead; a key is skipped because the goal says so or because its newest visible
      version, a tombstone, has been passed. */
  ghost predicate Searching(v: View, g: Goal, pos: nat, skipping: bool, k: UserKey) {
    && g.from <= pos <= |v.es| && Passed(v, g, pos) && (g.skip ==> skipping && k >= g.k0)
    && (forall j :: 0 <= j < pos && v.es[j].seqno <= v.sequence ==>
          if skipping then v.es[j].key <= k else pos < |v.es| ==> v.es[j].key < v.es[pos].key)
    && (skipping ==> (g.skip && k == g.k0) || SeenVersion(v, k, pos))
    && (g.skip ==> ShownKey(v, g.k0))
  }

  ghost predicate ShownKey(v: View, k: UserKey) {
    exists t :: v.Shown(t) && v.es[t].key == k
  }

  ghost predicate SeenVersion(v: View, k: UserKey, to: int) {
    exists t :: 0 <= t < to && t < |v.es| && v.es[t].key == k && v.es[t].seqno <= v.sequence
  }

  lemma SearchFinds(v: View, g: Goal, pos: nat, skipping: bool, k: UserKey)
    requires Searching(v, g, pos, skipping, k) && pos < |v.es|
    requires v.es[pos].seqno <= v.sequence && !(skipping && v.es[pos].key <= k)
    requires !v.es[pos].Tombstone() && v.InBound(v.es[pos].key)
    ensures Reaches(v, g, pos)
  {
  }

  lemma SearchPassesUnseen(v: View, g: Goal, pos: nat, skipping: bool, k: UserKey)
    requires Sorted(v.es) && Searching(v, g, pos, skipping, k) && pos < |v.es| && v.es[pos].seqno > v.sequence
    ensures Searching(v, g, pos + 1, skipping, k)
  {
    assert SeenVersion(v, k, pos) ==> SeenVersion(v, k, pos + 1);
  }

  lemma SearchPassesTombstone(v: View, g: Goal, pos: nat, skipping: bool, k: UserKey)
    requires Sorted(v.es) && Searching(v, g, pos, skipping, k) && pos < |v.es|
    requires v.es[pos].seqno <= v.sequence && v.es[pos].Tombstone() && !(skipping && v.es[pos].key <= k)
    ensures Searching(v, g, pos + 1, true, v.es[pos].key)
  {
    assert SeenVersion(v, v.es[pos].key, pos + 1);
  }

  /** Entries of skipped keys are never accepted. */
  lemma SkippedNotAccepted(v: View, g: Goal, pos: nat, k: UserKey, j: nat)
    requires Sorted(v.es) && Searching(v, g, pos, true, k) && pos <= j < |v.es| && v.es[j].key <= k
    ensures !Accepts(v, g, j)
  {
    if SeenVersion(v, k, pos) {
      var t :| 0 <= t < pos && t < |v.es| && v.es[t].key == k && v.es[t].seqno <= v.sequence;
      assert v.es[t].key <= v.es[j].key;
    }
  }

  lemma SearchPassesSkipped(v: View, g: Goal, pos: nat, k: UserKey)
    requires Sorted(v.es) && Searching(v, g, pos, true, k) && pos < |v.es| && v.es[pos].key <= k
    ensures Searching(v, g, pos + 1, true, k)
  {
    SkippedNotAccepted(v, g, pos, k, pos);
    assert SeenVersion(v, k, pos) ==> SeenVersion(v, k, pos + 1);
  }

  /** Where a version of a skipped key is left for, and the count of skipped entries then. */
  function PassTo(es: seq<Entry>, maxSkip: nat, pos: nat, numSkipped: nat, k: UserKey): (nat, nat)
    requires pos < |es|
  {
    if numSkipped + 1 > maxSkip then (SeekFrom(es, SeekKey(k, 0, Deletion), 0), 0) else (pos + 1, numSkipped + 1)
  }

  /** The forward scan does not advance exactly when reseeking at once is asked for and it stands on (k, 0, Deletion)
      while skipping k: then it goes round for ever. */
  lemma ScanStaysIff(es: seq<Entry>, maxSkip: nat, pos: nat, numSkipped: nat, k: UserKey)
    requires Sorted(es) && pos < |es| && es[pos].key <= k && numSkipped <= maxSkip
    ensures PassTo(es, maxSkip, pos, numSkipped, k) == (pos, numSkipped) <==> maxSkip == 0 && ZeroDeletion(es[pos], k)
    ensures maxSkip > 0 && !(numSkipped == maxSkip && ZeroDeletion(es[pos], k)) ==> PassTo(es, maxSkip, pos, numSkipped, k).0 > pos
  {
    SeekPastKey(es, k);
  }

  /** It happens: Next from a Put over a stored (k, 0, Deletion). */
  lemma ScanGoesRound()
    ensures var es := [Entry(0.0, 1, Value, []), Entry(0.0, 0, Deletion, [])];
            PassTo(es, 0, 0, 0, 0.0) == (1, 0) && PassTo(es, 0, 1, 0, 0.0) == (1, 0)
  {
    var es := [Entry(0.0, 1, Value, []), Entry(0.0, 0, Deletion, [])];
    SeekPastKey(es, 0.0);
    ScanStaysIff(es, 0, 1, 0, 0.0);
    ScanStaysIff(es, 0, 0, 0, 0.0);
  }

  /** A (k, 0, Deletion) met while skipping k lies under a visible version of k. */
  lemma NotBuried(v: View, g: Goal, pos: nat, k: UserKey)
    requires Sorted(v.es) && Searching(v, g, pos, true, k) && pos < |v.es| && v.InBound(v.es[pos].key)
    ensures NoBuriedDeletion(v) ==> !ZeroDeletion(v.es[pos], k)
  {
    if g.skip && k == g.k0 {
      var t :| v.Shown(t) && v.es[t].key == k;
      assert ZeroDeletion(v.es[pos], k) ==> t < pos;
    }
  }

  /** The reseek lands at or past the skipped key's versions. */
  lemma SearchReseeks(v: View, g: Goal, pos: nat, k: UserKey)
    requires Sorted(v.es) && Searching(v, g, pos, true, k) && pos < |v.es| && v.es[pos].key <= k
    ensures var q := SeekFrom(v.es, SeekKey(k, 0, Deletion), 0);
            pos <= q && Searching(v, g, q, true, k)
  {
    var q := SeekFrom(v.es, SeekKey(k, 0, Deletion), 0);
    SeekPastKey(v.es, k);
    forall j | pos <= j < q ensures !Accepts(v, g, j) {
      SkippedNotAccepted(v, g, pos, k, j);
    }
    assert SeenVersion(v, k, pos) ==> SeenVersion(v, k, q);
  }

  /** Nothing at or past the upper bound is shown. */
  lemma SearchEnds(v: View, g: Goal, pos: nat, skipping: bool, k: UserKey)
    requires Sorted(v.es) && Searching(v, g, pos, skipping, k)
    requires pos < |v.es| ==> !v.InBound(v.es[pos].key)
    ensures Passed(v, g, |v.es|)
  {
    forall j | pos <= j < |v.es| ensures !v.InBound(v.es[j].key) {
      assert v.es[pos].key <= v.es[j].key;
    }
  }

  // ------------------------------------------------------------------
  // The backward scan of one key
  // ------------------------------------------------------------------

  /** i is the version the reader is shown for k, its bound aside. */
  ghost predicate Resolves(v: View, k: UserKey, i: int) {
    v.Top(i) && v.es[i].key == k && !v.es[i].Tombstone()
  }

  ghost predicate KeyShown(v: View, k: UserKey) {
    exists i :: Resolves(v, k, i)
  }

  /** A merge whose operands end at a SingleDelete of the same key. */
  ghost predicate SingleDeleteUnder(v: View, i: nat)
    requires i < |v.es|
  {
    v.es[i].kind == Merge &&
    var j := v.MergeEnd(i);
    j < |v.es| && v.es[j].key == v.es[i].key && v.es[j].kind == SingleDeletion
  }

  /** The operator never gives the same result with and without a base value. */
  ghost predicate TellsAbsence(merge: MergeFn) {
    forall k, base, operands :: merge(k, Some(base), operands) != merge(k, None, operands)
  }

  /** An operand over a SingleDelete over an older Put. */
  function Buried(merge: MergeFn): View {
    View([Entry(0.0, 3, Merge, [1]), Entry(0.0, 2, SingleDeletion, []), Entry(0.0, 1, Value, [2])], 5, None, merge)
  }

  lemma BuriedView(merge: MergeFn)
    ensures var v := Buried(merge); Sorted(v.es) && v.Top(0) && SingleDeleteUnder(v, 0)
  {
    var v := Buried(merge);
    assert v.Top(0);
    MergeEndIs(v, 0, 1);
  }

  method ForwardValue(merge: MergeFn) returns (value: Bytes)
    ensures value == Buried(merge).ValueOf(0)
  {
    var it := new DBIter(Buried(merge), 3, false);
    it.pos, it.savedKey := 0, 0.0;
    it.MergeValuesNewToOld();
    value := it.savedValue;
  }

  method BackwardValue(merge: MergeFn) returns (value: Bytes)
    ensures TellsAbsence(merge) ==> value != Buried(merge).ValueOf(0)
  {
    BuriedView(merge);
    var it := new DBIter(Buried(merge), 3, false);
    it.pos, it.savedKey := 2, 0.0;
    var tooMany, operands, lastNotMerge, lastKind, m := it.ScanKey();
    assert !tooMany && it.pos == -1;
    TopDecides(it.v, 0.0, 0);
    var found := it.FinishScan(operands, lastNotMerge, lastKind, m, 3);
    ShownIsUnique(it.v, 0, 2);
    assert it.cur == 0;
    value := it.savedValue;
  }

  /** The reverse scan's one wrong answer: it takes the deleted Put for the base, and gives another value than the
      forward scan for every operator that can tell. */
  method OperandOverSingleDelete(merge: MergeFn) returns (forward: Bytes, backward: Bytes)
    ensures forward == Buried(merge).ValueOf(0)
    ensures TellsAbsence(merge) ==> backward != forward
  {
    forward := ForwardValue(merge);
    backward := BackwardValue(merge);
  }

  /** What the scan from hi - 1 down to lo has gathered: the operands above m, the newest version
      that is not an operand, its kind, and its value when it is a Put. */
  ghost predicate Scanned(v: View, lo: nat, m: nat, hi: nat, operands: seq<Bytes>, lastNotMerge: ValueType,
                          lastKind: ValueType, saved: Bytes)
  {
    && lo <= m <= hi <= |v.es| && operands == v.Operands(lo, m)
    && (forall j :: lo <= j < m ==> v.es[j].kind == Merge)
    && (if m < hi then v.es[m].kind != Merge && lastNotMerge == v.es[m].kind else lastNotMerge == Deletion)
    && (m < hi && v.es[m].kind == Value ==> saved == v.es[m].value)
    && lastKind == (if lo < hi then v.es[lo].kind else Deletion)
  }

  /** At the end of the scan the version at lo is the newest visible one of its key. */
  lemma ScanDone(v: View, lo: nat, m: nat, hi: nat, operands: seq<Bytes>, lastNotMerge: ValueType,
                 lastKind: ValueType, saved: Bytes, k: UserKey)
    requires Sorted(v.es) && Scanned(v, lo, m, hi, operands, lastNotMerge, lastKind, saved)
    requires 0 < hi && v.es[hi - 1].key == k && (hi == |v.es| || v.es[hi].key != k)
    requires forall j :: lo <= j < hi ==> v.es[j].key == k && v.es[j].seqno <= v.sequence
    requires lo == 0 || v.es[lo - 1].seqno > v.sequence || v.es[lo - 1].key != k
    ensures lo < hi ==> v.Top(lo)
    ensures Resolves(v, k, lo) ==> lo < hi && KeyShown(v, k)
    ensures KeyShown(v, k) <==> lastKind == Value || lastKind == Merge
    ensures lastKind == Merge && !SingleDeleteUnder(v, lo) ==>
              v.merge(k, if lastNotMerge == Deletion then None else Some(saved), operands) == v.ValueOf(lo)
    ensures lastKind == Value ==> saved == v.ValueOf(lo) && !SingleDeleteUnder(v, lo)
    ensures lastKind == Merge && SingleDeleteUnder(v, lo) ==>
              lastNotMerge != Deletion && v.ValueOf(lo) == v.merge(k, None, operands)
  {
    forall j | 0 <= j < lo && v.es[j].key == k ensures v.es[j].seqno > v.sequence {
      assert v.es[j].key <= v.es[lo - 1].key <= v.es[hi - 1].key;
    }
    if lo < hi {
      assert v.Top(lo);
      TopDecides(v, k, lo);
      if lastKind == Merge {
        MergeEndIs(v, lo, m);
      }
      assert lastKind == Value || lastKind == Merge ==> Resolves(v, k, lo);
    } else {
      forall i ensures !Resolves(v, k, i) {
        if 0 <= i < |v.es| && v.es[i].key == k {
          assert i < hi;
        }
      }
    }
  }

  lemma ScanShown(v: View, lo: nat, m: nat, hi: nat, operands: seq<Bytes>, lastNotMerge: ValueType,
                  lastKind: ValueType, saved: Bytes, k: UserKey)
    requires Sorted(v.es) && Scanned(v, lo, m, hi, operands, lastNotMerge, lastKind, saved)
    requires 0 < hi && v.es[hi - 1].key == k && (hi == |v.es| || v.es[hi].key != k)
    requires forall j :: lo <= j < hi ==> v.es[j].key == k && v.es[j].seqno <= v.sequence
    requires lo == 0 || v.es[lo - 1].seqno > v.sequence || v.es[lo - 1].key != k
    ensures KeyShown(v, k) <==> lastKind == Value || lastKind == Merge
  {
    ScanDone(v, lo, m, hi, operands, lastNotMerge, lastKind, saved, k);
  }

  /** The value gathered by the scan is the value of the key, or not, exactly as a SingleDelete lies under it. */
  lemma ScanValue(v: View, lo: nat, m: nat, hi: nat, operands: seq<Bytes>, lastNotMerge: ValueType,
                  lastKind: ValueType, saved: Bytes, k: UserKey, value: Bytes)
    requires Sorted(v.es) && Scanned(v, lo, m, hi, operands, lastNotMerge, lastKind, saved)
    requires 0 < hi && v.es[hi - 1].key == k && (hi == |v.es| || v.es[hi].key != k)
    requires forall j :: lo <= j < hi ==> v.es[j].key == k && v.es[j].seqno <= v.sequence
    requires lo == 0 || v.es[lo - 1].seqno > v.sequence || v.es[lo - 1].key != k
    requires lastKind == Value || lastKind == Merge
    requires value == if lastKind == Merge then v.merge(k, if lastNotMerge == Deletion then None else Some(saved), operands) else saved
    ensures lo < hi && Resolves(v, k, lo)
    ensures !SingleDeleteUnder(v, lo) ==> value == v.ValueOf(lo)
    ensures TellsAbsence(v.merge) ==> (value == v.ValueOf(lo) <==> !SingleDeleteUnder(v, lo))
  {
    ScanDone(v, lo, m, hi, operands, lastNotMerge, lastKind, saved, k);
  }

  /** The value of the key the scan went over, if it has one. */
  method Gathered(v: View, lo: nat, ghost m: nat, ghost hi: nat, operands: seq<Bytes>, lastNotMerge: ValueType,
                  lastKind: ValueType, saved: Bytes, k: UserKey) returns (found: bool, value: Bytes)
    requires Sorted(v.es) && Scanned(v, lo, m, hi, operands, lastNotMerge, lastKind, saved)
    requires 0 < hi && v.es[hi - 1].key == k && (hi == |v.es| || v.es[hi].key != k)
    requires forall j :: lo <= j < hi ==> v.es[j].key == k && v.es[j].seqno <= v.sequence
    requires lo == 0 || v.es[lo - 1].seqno > v.sequence || v.es[lo - 1].key != k
    ensures found <==> KeyShown(v, k)
    ensures found ==> lo < hi && Resolves(v, k, lo)
    ensures found && !SingleDeleteUnder(v, lo) ==> value == v.ValueOf(lo)
    ensures found && TellsAbsence(v.merge) ==> (value == v.ValueOf(lo) <==> !SingleDeleteUnder(v, lo))
  {
    ScanShown(v, lo, m, hi, operands, lastNotMerge, lastKind, saved, k);
    value := saved;
    if lastKind == Deletion || lastKind == SingleDeletion {
      return false, value;
    }
    if lastKind == Merge {
      value := v.merge(k, if lastNotMerge == Deletion then None else Some(saved), operands);
    }
    ScanValue(v, lo, m, hi, operands, lastNotMerge, lastKind, saved, k, value);
    found := true;
  }

  /** pos is the last entry of its user key. */
  ghost predicate KeyEnd(v: View, pos: int) {
    -1 <= pos < |v.es| && (0 <= pos < |v.es| - 1 ==> v.es[pos].key < v.es[pos + 1].key)
  }

  /** The newest visible version decides whether its key is shown. */
  lemma TopDecides(v: View, k: UserKey, top: nat)
    requires Sorted(v.es) && v.Top(top) && v.es[top].key == k
    ensures KeyShown(v, k) <==> !v.es[top].Tombstone()
  {
    forall i | Resolves(v, k, i) ensures i == top {
      assert v.es[i].key == v.es[top].key;
    }
    assert !v.es[top].Tombstone() ==> Resolves(v, k, top);
  }

  /** A key's only shown version is its resolved one. */
  lemma ShownIsUnique(v: View, i: nat, last: nat)
    requires Sorted(v.es) && i <= last < |v.es| && Resolves(v, v.es[last].key, i)
    ensures NoneShown(v, i + 1, last + 1)
  {
    forall j | i < j <= last ensures !v.Shown(j) {
      assert v.es[j].key == v.es[i].key;
    }
  }

  lemma NoneUnder(v: View, i: nat)
    requires Sorted(v.es) && NoSingleDeleteUnderMerge(v) && i < |v.es| && v.es[i].seqno <= v.sequence
    ensures !SingleDeleteUnder(v, i)
  {
    if v.es[i].kind == Merge {
      var j := v.MergeEnd(i);
      assert i < j;
      assert v.es[j - 1].kind == Merge && v.es[j - 1].key == v.es[i].key;
      assert v.es[j - 1].seqno <= v.es[i].seqno;
    }
  }

  /** Being before a key's last version is being before its shown version. */
  lemma ResolvedIsShown(v: View, pos: int, i: nat, last: nat)
    requires Sorted(v.es) && i <= last < |v.es| && Resolves(v, v.es[last].key, i)
    requires -1 <= pos < last && (pos >= 0 ==> v.es[pos].key < v.es[last].key)
    ensures pos < i && (v.InBound(v.es[last].key) ==> v.Shown(i))
  {
    assert pos >= 0 ==> !(i <= pos);
  }

  lemma SameKey(v: View, i: nat, hi: nat)
    requires Sorted(v.es) && i < |v.es| && 0 < hi <= |v.es| && v.es[i].key == v.es[hi - 1].key && KeyEnd(v, hi - 1)
    ensures i < hi && forall j :: i <= j < hi ==> v.es[j].key == v.es[i].key
  {
  }

  // ------------------------------------------------------------------
  // Places in the visible map
  // ------------------------------------------------------------------

  lemma StrictlyBefore(v: View, pos: int, i: nat, last: nat)
    requires Sorted(v.es) && i <= last < |v.es| && v.es[i].key == v.es[last].key
    requires -1 <= pos < last && (pos >= 0 ==> v.es[pos].key < v.es[last].key)
    ensures pos < i
  {
    assert pos >= 0 ==> !(i <= pos);
  }

  /** i is a shown version, or the end. */
  ghost predicate Stop(v: View, i: nat) {
    i == |v.es| || v.Shown(i)
  }

  lemma PassedMeansNone(v: View, g: Goal, to: nat)
    requires !g.skip && Passed(v, g, to)
    ensures NoneShown(v, g.from, to)
  {
    forall i | g.from <= i < to ensures !v.Shown(i) {
      assert !Accepts(v, g, i);
    }
  }

  /** The first stop has place 0. */
  lemma FirstPlace(v: View, i: nat)
    requires Stop(v, i) && NoneShown(v, 0, i)
    ensures |v.Pairs(i)| == 0 && (i < |v.es| <==> |v.All()| > 0)
  {
    PairsSkip(v, 0, i);
    if i < |v.es| {
      PlaceOf(v, i);
    }
  }

  lemma LastPlace(v: View, i: nat)
    requires v.Shown(i) && NoneShown(v, i + 1, |v.es|)
    ensures |v.Pairs(i)| == |v.All()| - 1
  {
    PairsSkip(v, i + 1, |v.es|);
  }

  /** Two stops with nothing shown between them have neighbouring places. */
  lemma Neighbours(v: View, i: nat, j: nat)
    requires v.Shown(i) && i < j && Stop(v, j) && NoneShown(v, i + 1, j)
    ensures |v.Pairs(j)| == |v.Pairs(i)| + 1 && (j < |v.es| <==> |v.Pairs(i)| + 1 < |v.All()|)
  {
    PairsSkip(v, i + 1, j);
    if j < |v.es| {
      PlaceOf(v, j);
    }
  }

  /** From pos, a forward search that skips the key of version i misses no later key. */
  ghost predicate LeavesKey(v: View, i: nat, pos: int) {
    && i < |v.es| && 0 <= pos <= |v.es|
    && (forall j :: 0 <= j < pos ==> v.es[j].key <= v.es[i].key)
  }

  lemma SkipFrom(v: View, i: nat, pos: nat)
    requires LeavesKey(v, i, pos) && v.Shown(i)
    ensures Searching(v, Goal(pos, true, v.es[i].key), pos, true, v.es[i].key)
  {
  }

  /** A forward search that skips the current key reaches the next place. */
  lemma NextPlace(v: View, i: nat, from: nat, j: nat)
    requires Sorted(v.es) && v.Shown(i) && Stop(v, j) && LeavesKey(v, i, from)
    requires Passed(v, Goal(from, true, v.es[i].key), j)
    requires j < |v.es| ==> v.es[j].key > v.es[i].key
    ensures |v.Pairs(j)| == |v.Pairs(i)| + 1 && (j < |v.es| <==> |v.Pairs(i)| + 1 < |v.All()|)
  {
    assert i < j;
    forall m | i < m < j ensures !v.Shown(m) {
      assert !Accepts(v, Goal(from, true, v.es[i].key), m);
      assert v.es[i].key <= v.es[m].key;
    }
    Neighbours(v, i, j);
  }

  /** A backward search from before the current key reaches the previous place. */
  lemma PrevPlace(v: View, i: nat, from: int, j: int)
    requires Sorted(v.es) && v.Shown(i) && -1 <= from < i && -1 <= j <= from
    requires forall m :: from < m <= i ==> v.es[m].key == v.es[i].key
    requires NoneShown(v, j + 1, from + 1) && (j >= 0 ==> v.Shown(j))
    ensures if j >= 0 then |v.Pairs(i)| == |v.Pairs(j)| + 1 else |v.Pairs(i)| == 0
  {
    assert NoneShown(v, j + 1, i);
    if j >= 0 {
      Neighbours(v, j, i);
    } else {
      FirstPlace(v, i);
    }
  }

  /** A forward search from the seek position reaches the first place at or past the target. */
  lemma SeekPlace(v: View, target: UserKey, from: nat, j: nat)
    requires Sorted(v.es) && from <= j && Stop(v, j) && NoneShown(v, from, j)
    requires forall m :: 0 <= m < from ==> v.es[m].key < target || !v.Shown(m)
    requires forall m :: from <= m < |v.es| ==> v.es[m].key >= target
    ensures forall p :: 0 <= p < |v.Pairs(j)| && p < |v.All()| ==> v.All()[p].0 < target
    ensures j < |v.es| ==> |v.Pairs(j)| < |v.All()| && v.All()[|v.Pairs(j)|].0 >= target
    ensures j < |v.es| <==> exists p :: 0 <= p < |v.All()| && v.All()[p].0 >= target
  {
    forall p | 0 <= p < |v.Pairs(j)| && p < |v.All()| ensures v.All()[p].0 < target {
      var i := PairFrom(v, |v.es|, p);
      PairsMonotone(v, j, i);
      assert i < j;
    }
    if j < |v.es| {
      PlaceOf(v, j);
    }
  }

  lemma OperandsOne(v: View, i: nat)
    requires i < |v.es|
    ensures v.Operands(i, i + 1) == [v.es[i].value]
  {
    assert v.Operands(i + 1, i + 1) == [];
  }

  /** Extending the run by one older operand puts it in front. */
  lemma {:induction false} OperandsExtend(v: View, i: nat, j: nat)
    requires i <= j < |v.es|
    ensures v.Operands(i, j + 1) == [v.es[j].value] + v.Operands(i, j)
    decreases j - i
  {
    if i < j {
      OperandsExtend(v, i + 1, j);
    }
  }

  /** A maximal run of operands ends where MergeEnd says. */
  lemma {:induction false} MergeEndIs(v: View, i: nat, j: nat)
    requires i < j <= |v.es|
    requires forall m :: i <= m < j ==> v.es[m].kind == Merge && v.es[m].key == v.es[i].key
    requires j == |v.es| || v.es[j].key != v.es[i].key || v.es[j].kind != Merge
    ensures v.MergeEnd(i) == j
    decreases j - i
  {
    if i + 1 < j {
      MergeEndIs(v, i + 1, j);
    }
  }

  // ------------------------------------------------------------------
  // Whole runs
  // ------------------------------------------------------------------

  datatype Op = OpSeekToFirst | OpSeekToLast | OpSeek(target: UserKey) | OpNext | OpPrev

  /** The first place at or after p whose key is at least the target. */
  ghost function LowerBound(m: seq<(UserKey, Bytes)>, target: UserKey, p: nat): nat
    requires p <= |m|
    decreases |m| - p
  {
    if p == |m| || m[p].0 >= target then p else LowerBound(m, target, p + 1)
  }

  /** A plain cursor over a sorted map: None is "not valid". */
  ghost function Moved(m: seq<(UserKey, Bytes)>, c: Option<nat>, op: Op): (r: Option<nat>)
    requires c.Some? ==> c.value < |m|
    ensures r.Some? ==> r.value < |m|
  {
    match op
    case OpSeekToFirst => if m == [] then None else Some(0)
    case OpSeekToLast => if m == [] then None else Some(|m| - 1)
    case OpSeek(t) =>
      LowerBoundIs(m, t, 0);
      var p := LowerBound(m, t, 0); if p < |m| then Some(p) else None
    case OpNext => if c.Some? && c.value + 1 < |m| then Some(c.value + 1) else None
    case OpPrev => if c.Some? && c.value > 0 then Some(c.value - 1) else None
  }

  lemma {:induction false} LowerBoundIs(m: seq<(UserKey, Bytes)>, target: UserKey, p: nat)
    requires p <= |m|
    ensures p <= LowerBound(m, target, p) <= |m|
    ensures forall q :: p <= q < LowerBound(m, target, p) ==> m[q].0 < target
    ensures LowerBound(m, target, p) < |m| ==> m[LowerBound(m, target, p)].0 >= target
    decreases |m| - p
  {
    if p < |m| && m[p].0 < target {
      LowerBoundIs(m, target, p + 1);
    }
  }

  /** What a cursor shows after each operation of a run. */
  ghost function Shows(m: seq<(UserKey, Bytes)>, c: Option<nat>, ops: seq<Op>): seq<Option<(UserKey, Bytes)>>
    requires c.Some? ==> c.value < |m|
    decreases |ops|
  {
    if ops == [] then []
    else
      var c' := Moved(m, c, ops[0]);
      [if c'.Some? then Some(m[c'.value]) else None] + Shows(m, c', ops[1..])
  }

  /** The abstract state of an iterator. */
  ghost function StateOf(it: DBIter): (c: Option<nat>)
    requires it.Valid()
    reads it
    ensures c.Some? ==> c.value < |it.v.All()|
  {
    if it.valid then Some(it.Cursor()) else None
  }

  /** One operation moves the iterator as it moves a plain cursor. */
  method Perform(it: DBIter, op: Op)
    requires it.Valid()
    modifies it
    ensures it.Valid() && StateOf(it) == Moved(it.v.All(), old(StateOf(it)), op)
  {
    match op {
      case OpSeekToFirst => it.SeekToFirst();
      case OpSeekToLast => it.SeekToLast();
      case OpSeek(target) =>
        LowerBoundIs(it.v.All(), target, 0);
        it.Seek(target);
      case OpNext => if it.valid { it.Next(); }
      case OpPrev => if it.valid { it.Prev(); }
    }
  }

  /** What the iterator shows is what the cursor points at. */
  method Show(it: DBIter) returns (shown: Option<(UserKey, Bytes)>)
    requires it.Valid()
    ensures shown == if it.valid then Some(it.v.All()[it.Cursor()]) else None
  {
    if it.valid {
      var key, value := it.Current();
      shown := Some((key, value));
    } else {
      shown := None;
    }
  }

  /** Any run of operations, with any direction changes, shows what a plain cursor over the visible
      map shows. Next and Prev are not called on an iterator that is not valid. */
  method Run(it: DBIter, ops: seq<Op>) returns (shown: seq<Option<(UserKey, Bytes)>>)
    requires it.Valid()
    modifies it
    ensures it.Valid() && shown == Shows(it.v.All(), old(StateOf(it)), ops)
    decreases |ops|
  {
    if ops == [] {
      return [];
    }
    Perform(it, ops[0]);
    var first := Show(it);
    var rest := Run(it, ops[1..]);
    shown := [first] + rest;
  }
}
