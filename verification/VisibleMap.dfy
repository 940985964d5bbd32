/** What a reader at one sequence number sees of a sorted run of versions: the sorted map of user
    keys and values that an iterator must present. */
module VisibleMap {
  import opened DbFormat
  import opened CompactionReads

  /** FullMerge: user key, optional base value, operands oldest first. */
  type MergeFn = (UserKey, Option<Bytes>, seq<Bytes>) -> Bytes

  /** The versions, the reader's sequence, its exclusive upper bound, and the merge operator. */
  datatype View = View(es: seq<Entry>, sequence: nat, upper: Option<UserKey>, merge: MergeFn) {

    /** es[i] is the newest version of its key that the reader sees. */
    ghost predicate Top(i: int) {
      && 0 <= i < |es| && es[i].seqno <= sequence
      && (forall j :: 0 <= j < i && es[j].key == es[i].key ==> es[j].seqno > sequence)
    }

    predicate InBound(k: UserKey) { upper == None || k < upper.value }

    /** es[i] is what the reader is shown for its key. */
    ghost predicate Shown(i: int) {
      Top(i) && !es[i].Tombstone() && InBound(es[i].key)
    }

    /** The end of the run of merge operands of one key that starts at i. */
    ghost function MergeEnd(i: nat): (j: nat)
      requires i <= |es|
      ensures i <= j <= |es|
      ensures forall m :: i <= m < j ==> es[m].kind == Merge && es[m].key == es[i].key
      ensures i < j < |es| ==> es[j].kind != Merge || es[j].key != es[i].key
      decreases |es| - i
    {
      if i == |es| || es[i].kind != Merge then i
      else if i + 1 < |es| && es[i + 1].key == es[i].key then MergeEnd(i + 1)
      else i + 1
    }

    /** Values of entries i..j, oldest first. */
    ghost function Operands(i: nat, j: nat): (ops: seq<Bytes>)
      requires i <= j <= |es|
      ensures |ops| == j - i
      decreases j - i
    {
      if i == j then [] else Operands(i + 1, j) + [es[i].value]
    }

    /** The value a run of operands ending at j applies to. */
    ghost function Base(i: nat, j: nat): Option<Bytes>
      requires i <= j <= |es| && i < |es|
    {
      if j < |es| && es[j].key == es[i].key && es[j].kind == Value then Some(es[j].value) else None
    }

    ghost function ValueOf(i: nat): Bytes
      requires i < |es|
    {
      if es[i].kind == Merge then
        var j := MergeEnd(i);
        merge(es[i].key, Base(i, j), Operands(i, j))
      else es[i].value
    }

    /** The visible keys and values among the first n versions, in key order. */
    ghost function Pairs(n: nat): (ps: seq<(UserKey, Bytes)>)
      requires n <= |es|
      ensures |ps| <= n
    {
      if n == 0 then []
      else Pairs(n - 1) + if Shown(n - 1) then [(es[n - 1].key, ValueOf(n - 1))] else []
    }

    /** The whole visible map. */
    ghost function All(): seq<(UserKey, Bytes)> {
      Pairs(|es|)
    }
  }

  ghost predicate NoneShown(v: View, lo: int, hi: int) {
    forall i :: lo <= i < hi ==> !v.Shown(i)
  }

  lemma {:induction false} PairsSkip(v: View, lo: nat, hi: nat)
    requires lo <= hi <= |v.es| && NoneShown(v, lo, hi)
    ensures v.Pairs(hi) == v.Pairs(lo)
  {
    if lo < hi {
      PairsSkip(v, lo, hi - 1);
    }
  }

  lemma {:induction false} PairsPrefix(v: View, lo: nat, hi: nat)
    requires lo <= hi <= |v.es|
    ensures v.Pairs(lo) <= v.Pairs(hi)
  {
    if lo < hi {
      PairsPrefix(v, lo, hi - 1);
    }
  }

  /** A shown version's place in the map. */
  lemma PlaceOf(v: View, i: nat)
    requires v.Shown(i)
    ensures |v.Pairs(i)| < |v.All()| && v.All()[|v.Pairs(i)|] == (v.es[i].key, v.ValueOf(i))
  {
    PairsPrefix(v, i + 1, |v.es|);
    assert v.Pairs(i + 1)[|v.Pairs(i)|] == (v.es[i].key, v.ValueOf(i));
  }

  /** Every pair of the map comes from a shown version. */
  lemma {:induction false} PairFrom(v: View, n: nat, p: nat) returns (i: nat)
    requires n <= |v.es| && p < |v.Pairs(n)|
    ensures i < n && v.Shown(i) && |v.Pairs(i)| == p && v.Pairs(n)[p] == (v.es[i].key, v.ValueOf(i))
  {
    if p < |v.Pairs(n - 1)| {
      i := PairFrom(v, n - 1, p);
    } else {
      i := n - 1;
    }
  }

  /** The map is in strictly increasing key order. */
  lemma AllIncreasing(v: View, p: nat, q: nat)
    requires Sorted(v.es) && p < q < |v.All()|
    ensures v.All()[p].0 < v.All()[q].0
  {
    var i := PairFrom(v, |v.es|, p);
    var j := PairFrom(v, |v.es|, q);
    PairsMonotone(v, j, i);
    assert i < j;
  }

  lemma PairsMonotone(v: View, lo: nat, hi: nat)
    requires lo <= |v.es| && hi <= |v.es|
    ensures lo <= hi ==> |v.Pairs(lo)| <= |v.Pairs(hi)|
  {
    if lo <= hi {
      PairsPrefix(v, lo, hi);
    }
  }

  /** Without merges the map holds exactly the reads of the store at the reader's sequence. */
  lemma AllAreReads(v: View, k: UserKey, value: Bytes)
    requires Sorted(v.es) && forall i :: 0 <= i < |v.es| ==> v.es[i].kind != Merge
    ensures (k, value) in v.All() <==> (v.upper == None || k < v.upper.value) && ReadsAs(Elems(v.es), k, v.sequence, value)
  {
    if (k, value) in v.All() {
      var p :| 0 <= p < |v.All()| && v.All()[p] == (k, value);
      var i := PairFrom(v, |v.es|, p);
      TopIsNewest(v, i);
      assert Newest(Elems(v.es), k, v.sequence, v.es[i]);
    }
    if v.InBound(k) && ReadsAs(Elems(v.es), k, v.sequence, value) {
      var e :| Newest(Elems(v.es), k, v.sequence, e) && e.kind == Value && e.value == value;
      assert e in v.es;
      var i :| 0 <= i < |v.es| && v.es[i] == e;
      forall j | 0 <= j < i && v.es[j].key == k ensures v.es[j].seqno > v.sequence {
        assert v.es[j] in Elems(v.es);
      }
      PlaceOf(v, i);
    }
  }

  // ------------------------------------------------------------------
  // What the map holds, spelled out
  // ------------------------------------------------------------------

  /** Version i of k is seen, and no newer one is. */
  ghost predicate NewestSeen(v: View, k: UserKey, i: int) {
    && 0 <= i < |v.es| && v.es[i].key == k && v.es[i].seqno <= v.sequence
    && (forall j :: 0 <= j < i && v.es[j].key == k ==> v.es[j].seqno > v.sequence)
  }

  /** A key is in the map exactly when it is below the bound and its newest visible version is a Put or a merge operand. */
  lemma KeysOfAll(v: View, k: UserKey)
    ensures (exists p :: 0 <= p < |v.All()| && v.All()[p].0 == k) <==>
            && (v.upper == None || k < v.upper.value)
            && (exists i :: NewestSeen(v, k, i) && (v.es[i].kind == Value || v.es[i].kind == Merge))
  {
    if p :| 0 <= p < |v.All()| && v.All()[p].0 == k {
      var i := PairFrom(v, |v.es|, p);
      assert NewestSeen(v, k, i);
    }
    if i :| NewestSeen(v, k, i) && v.Shown(i) {
      PlaceOf(v, i);
    }
  }

  lemma {:induction false} OperandsOldestFirst(v: View, i: nat, j: nat, m: nat)
    requires i <= j <= |v.es| && m < j - i
    ensures v.Operands(i, j)[m] == v.es[j - 1 - m].value
    decreases j - i
  {
    if m < j - i - 1 {
      OperandsOldestFirst(v, i + 1, j, m);
    }
  }

  /** The value of a run of merge operands: they apply, oldest first, to the Put right below the run if there is one, and
      otherwise to nothing. */
  lemma MergedValue(v: View, i: nat) returns (end: nat, base: Option<Bytes>, ops: seq<Bytes>)
    requires v.Shown(i) && v.es[i].kind == Merge
    ensures (v.es[i].key, v.merge(v.es[i].key, base, ops)) in v.All()
    ensures i < end <= |v.es| && forall m :: i <= m < end ==> v.es[m].kind == Merge && v.es[m].key == v.es[i].key
    ensures end < |v.es| && v.es[end].key == v.es[i].key ==> v.es[end].kind != Merge
    ensures base.Some? <==> end < |v.es| && v.es[end].key == v.es[i].key && v.es[end].kind == Value
    ensures base.Some? ==> base.value == v.es[end].value
    ensures |ops| == end - i && forall m :: 0 <= m < |ops| ==> ops[m] == v.es[end - 1 - m].value
  {
    PlaceOf(v, i);
    end := v.MergeEnd(i);
    base, ops := v.Base(i, end), v.Operands(i, end);
    forall m | 0 <= m < |ops| ensures ops[m] == v.es[end - 1 - m].value {
      OperandsOldestFirst(v, i, end, m);
    }
  }

  ghost predicate SameButBound(v: View, w: View) {
    v.es == w.es && v.sequence == w.sequence && v.merge == w.merge
  }

  lemma {:induction false} SameOperands(v: View, w: View, i: nat, j: nat)
    requires SameButBound(v, w) && i <= j <= |v.es|
    ensures v.Operands(i, j) == w.Operands(i, j)
    decreases j - i
  {
    if i < j {
      SameOperands(v, w, i + 1, j);
    }
  }

  lemma {:induction false} SameMergeEnd(v: View, w: View, i: nat)
    requires SameButBound(v, w) && i <= |v.es|
    ensures v.MergeEnd(i) == w.MergeEnd(i)
    decreases |v.es| - i
  {
    if i < |v.es| {
      SameMergeEnd(v, w, i + 1);
    }
  }

  /** The bound has no say in a value. */
  lemma SameValueOf(v: View, w: View, i: nat)
    requires SameButBound(v, w) && i < |v.es|
    ensures v.ValueOf(i) == w.ValueOf(i)
  {
    SameMergeEnd(v, w, i);
    SameOperands(v, w, i, v.MergeEnd(i));
  }

  lemma {:induction false} SamePairs(v: View, w: View, n: nat)
    requires SameButBound(v, w) && n <= |v.es| && forall i :: 0 <= i < n ==> (v.Shown(i) <==> w.Shown(i))
    ensures v.Pairs(n) == w.Pairs(n)
  {
    if n > 0 {
      SamePairs(v, w, n - 1);
      SameValueOf(v, w, n - 1);
    }
  }

  lemma BelowBound(es: seq<Entry>, u: UserKey) returns (q: nat)
    requires Sorted(es)
    ensures q <= |es| && forall i :: 0 <= i < |es| ==> (i < q <==> es[i].key < u)
  {
    q := 0;
    while q < |es| && es[q].key < u
      invariant q <= |es| && forall i :: 0 <= i < q ==> es[i].key < u
    {
      q := q + 1;
    }
    assert forall i :: q < i < |es| ==> es[q].key <= es[i].key;
  }

  /** A bound u leaves exactly the part of the unbounded map whose keys are less than u. */
  lemma BoundedIsPart(v: View, u: UserKey) returns (n: nat)
    requires Sorted(v.es) && v.upper == Some(u)
    ensures var all := v.(upper := None).All();
            n <= |all| && v.All() == all[..n] && forall p :: 0 <= p < |all| ==> (p < n <==> all[p].0 < u)
  {
    var w := v.(upper := None);
    var q := BelowBound(v.es, u);
    SamePairs(v, w, q);
    PairsSkip(v, q, |v.es|);
    PairsPrefix(w, q, |v.es|);
    n := |w.Pairs(q)|;
    forall p | 0 <= p < |w.All()| ensures p < n <==> w.All()[p].0 < u {
      var i := PairFrom(w, |w.es|, p);
      PairsMonotone(w, q, i);
      PairsMonotone(w, i + 1, q);
    }
  }

  lemma TopIsNewest(v: View, i: nat)
    requires Sorted(v.es) && v.Top(i)
    ensures Newest(Elems(v.es), v.es[i].key, v.sequence, v.es[i])
  {
    forall f | f in Elems(v.es) && f.key == v.es[i].key && f.seqno <= v.sequence
      ensures f.seqno <= v.es[i].seqno
    {
      var j :| 0 <= j < |v.es| && v.es[j] == f;
    }
  }

  // ------------------------------------------------------------------
  // Seeking
  // ------------------------------------------------------------------

  /** The first position at or after `from` whose entry is not before the target. */
  function SeekFrom(es: seq<Entry>, target: Entry, from: nat): (p: nat)
    requires from <= |es|
    ensures from <= p <= |es|
    ensures forall j :: from <= j < p ==> Before(es[j], target)
    ensures p < |es| ==> !Before(es[p], target)
    decreases |es| - from
  {
    if from == |es| || !Before(es[from], target) then from else SeekFrom(es, target, from + 1)
  }

  function SeekKey(k: UserKey, sequence: nat, kind: ValueType): Entry {
    Entry(k, sequence, kind, [])
  }

  /** Seeking with the highest type finds the newest version that a sequence sees: the position
      holds k exactly when k has a visible version, and then it is the newest one. */
  lemma SeekFindsNewest(v: View, k: UserKey)
    requires Sorted(v.es)
    ensures var p := SeekFrom(v.es, SeekKey(k, v.sequence, ValueTypeForSeek), 0);
            && (p < |v.es| && v.es[p].key == k <==>
                exists i :: 0 <= i < |v.es| && v.es[i].key == k && v.es[i].seqno <= v.sequence)
            && (p < |v.es| && v.es[p].key == k ==> v.Top(p))
            && (forall j :: 0 <= j < p ==> v.es[j].key < k || (v.es[j].key == k && v.es[j].seqno > v.sequence))
            && (forall j :: p <= j < |v.es| ==> v.es[j].key >= k)
  {
    var target := SeekKey(k, v.sequence, ValueTypeForSeek);
    var p := SeekFrom(v.es, target, 0);
    forall j | p <= j < |v.es| ensures !Before(v.es[j], target) {
      if p < j {
        assert v.es[p].key < v.es[j].key || (v.es[p].key == v.es[j].key && v.es[p].seqno > v.es[j].seqno);
      }
    }
    if exists i :: 0 <= i < |v.es| && v.es[i].key == k && v.es[i].seqno <= v.sequence {
      var i :| 0 <= i < |v.es| && v.es[i].key == k && v.es[i].seqno <= v.sequence;
      assert !Before(v.es[i], target);
      assert p <= i;
      assert v.es[p].key <= k;
    }
  }

  /** Seeking to (k, 0, Deletion) passes every version of k, except a stored (k, 0, Deletion),
      which it stops at again and again. */
  lemma SeekPastKey(es: seq<Entry>, k: UserKey)
    requires Sorted(es)
    ensures var p := SeekFrom(es, SeekKey(k, 0, Deletion), 0);
            && (forall j :: 0 <= j < p ==> es[j].key <= k)
            && (forall j :: p < j < |es| ==> es[j].key > k)
            && (p < |es| ==> es[p].key >= k)
            && (p < |es| && es[p].key == k <==>
                exists i :: 0 <= i < |es| && es[i].key == k && es[i].seqno == 0 && es[i].kind == Deletion)
            && (p < |es| && es[p].key == k ==> es[p].seqno == 0 && es[p].kind == Deletion)
  {
    var target := SeekKey(k, 0, Deletion);
    var p := SeekFrom(es, target, 0);
    forall j | p < j < |es| ensures es[j].key > k {
      assert es[p].key < es[j].key || (es[p].key == es[j].key && es[p].seqno > es[j].seqno);
    }
    if exists i :: 0 <= i < |es| && es[i].key == k && es[i].seqno == 0 && es[i].kind == Deletion {
      var i :| 0 <= i < |es| && es[i].key == k && es[i].seqno == 0 && es[i].kind == Deletion;
      assert p <= i;
    }
  }

  /** Seeking with the highest sequence and type finds the first version of k or a later key. */
  lemma SeekFindsFirst(es: seq<Entry>, k: UserKey)
    requires Sorted(es) && forall i :: 0 <= i < |es| ==> es[i].seqno <= MAX_SEQUENCE_NUMBER
    ensures var p := SeekFrom(es, SeekKey(k, MAX_SEQUENCE_NUMBER, ValueTypeForSeek), 0);
            && (forall j :: 0 <= j < p ==> es[j].key < k)
            && (forall j :: p <= j < |es| ==> es[j].key >= k)
  {
    var p := SeekFrom(es, SeekKey(k, MAX_SEQUENCE_NUMBER, ValueTypeForSeek), 0);
    forall j | p <= j < |es| ensures es[j].key >= k {
      assert p < j ==> es[p].key <= es[j].key;
    }
  }
}
