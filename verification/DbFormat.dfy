/** Internal keys: their byte encoding, their order, and the order embedding that
    lets the other modules treat a user key as a number. */
module DbFormat {

  newtype byte = x: int | 0 <= x < 256

  /** The value types that appear in memtables and table files. */
  datatype ValueType = Deletion | Value | Merge | SingleDeletion {
    function Code(): (c: nat)
      ensures c < 256
    {
      match this
      case Deletion => 0
      case Value => 1
      case Merge => 2
      case SingleDeletion => 7
    }
  }

  /** The highest-numbered type, so that a seek key precedes every entry it must see. */
  const ValueTypeForSeek: ValueType := SingleDeletion

  const MAX_SEQUENCE_NUMBER: nat := 0xFF_FFFF_FFFF_FFFF

  datatype Option<+T> = None | Some(value: T)

  datatype ParsedInternalKey = ParsedInternalKey(userKey: seq<byte>, sequence: nat, kind: ValueType) {
    ghost predicate Storable() { sequence <= MAX_SEQUENCE_NUMBER }
  }

  // ------------------------------------------------------------------
  // Packing and byte encoding
  // ------------------------------------------------------------------

  function PackSequenceAndType(sequence: nat, kind: ValueType): (packed: nat)
    requires sequence <= MAX_SEQUENCE_NUMBER
  {
    sequence * 256 + kind.Code()
  }

  function TypeOfCode(c: nat): (t: Option<ValueType>)
    ensures forall k: ValueType :: k.Code() == c ==> t == Some(k)
    ensures t.Some? ==> t.value.Code() == c
  {
    if c == 0 then Some(Deletion)
    else if c == 1 then Some(Value)
    else if c == 2 then Some(Merge)
    else if c == 7 then Some(SingleDeletion)
    else None
  }

  /** Little-endian encoding of the low `width` bytes of n. */
  function EncodeFixed(n: nat, width: nat): (bytes: seq<byte>)
    ensures |bytes| == width
  {
    if width == 0 then [] else [(n % 256) as byte] + EncodeFixed(n / 256, width - 1)
  }

  function DecodeFixed(bytes: seq<byte>): (n: nat) {
    if bytes == [] then 0 else bytes[0] as nat + 256 * DecodeFixed(bytes[1..])
  }

  function Pow256(width: nat): (p: nat)
    ensures p > 0
  {
    if width == 0 then 1 else 256 * Pow256(width - 1)
  }

  lemma {:induction false} DecodeEncodeFixed(n: nat, width: nat)
    requires n < Pow256(width)
    ensures DecodeFixed(EncodeFixed(n, width)) == n
  {
    if width > 0 {
      DecodeEncodeFixed(n / 256, width - 1);
      assert EncodeFixed(n, width)[1..] == EncodeFixed(n / 256, width - 1);
    }
  }

  function AppendInternalKey(prefix: seq<byte>, key: ParsedInternalKey): (result: seq<byte>)
    requires key.Storable()
    ensures |result| == |prefix| + |key.userKey| + 8
  {
    prefix + key.userKey + EncodeFixed(PackSequenceAndType(key.sequence, key.kind), 8)
  }

  function ExtractUserKey(internalKey: seq<byte>): (k: seq<byte>)
    requires |internalKey| >= 8
  {
    internalKey[..|internalKey| - 8]
  }

  function PackedOf(internalKey: seq<byte>): (n: nat)
    requires |internalKey| >= 8
  {
    DecodeFixed(internalKey[|internalKey| - 8..])
  }

  /** None when the slice is shorter than the packed trailer or carries a type that is
      never stored. */
  function ParseInternalKey(internalKey: seq<byte>): (r: Option<ParsedInternalKey>) {
    if |internalKey| < 8 then None
    else
      var num := PackedOf(internalKey);
      match TypeOfCode(num % 256)
      case None => None
      case Some(kind) => Some(ParsedInternalKey(ExtractUserKey(internalKey), num / 256, kind))
  }

  lemma AppendSplits(key: ParsedInternalKey)
    requires key.Storable()
    ensures ExtractUserKey(AppendInternalKey([], key)) == key.userKey
    ensures PackedOf(AppendInternalKey([], key)) == PackSequenceAndType(key.sequence, key.kind)
  {
    var packed := PackSequenceAndType(key.sequence, key.kind);
    var bytes := AppendInternalKey([], key);
    assert bytes[..|bytes| - 8] == key.userKey;
    assert bytes[|bytes| - 8..] == EncodeFixed(packed, 8);
    assert Pow256(8) == 0x1_0000_0000_0000_0000 by {
      assert Pow256(2) == 0x1_0000;
      assert Pow256(4) == 0x1_0000_0000;
      assert Pow256(6) == 0x1_0000_0000_0000;
    }
    DecodeEncodeFixed(packed, 8);
  }

  /** Parsing undoes appending. */
  lemma ParseUndoesAppend(key: ParsedInternalKey)
    requires key.Storable()
    ensures ParseInternalKey(AppendInternalKey([], key)) == Some(key)
  {
    AppendSplits(key);
  }

  /** The layout: after the user key one byte of type, then the sequence number in seven bytes, low byte first. */
  lemma TrailerLayout(key: ParsedInternalKey)
    requires key.sequence < 0x100_0000_0000_0000
    ensures var b, n := AppendInternalKey([], key), |key.userKey|;
            && |b| == n + 8 && b[..n] == key.userKey
            && (b[n] == match key.kind case Deletion => 0 case Value => 1 case Merge => 2 case SingleDeletion => 7)
            && key.sequence == b[n + 1] as nat + 0x100 * (b[n + 2] as nat) + 0x1_0000 * (b[n + 3] as nat) +
               0x100_0000 * (b[n + 4] as nat) + 0x1_0000_0000 * (b[n + 5] as nat) + 0x100_0000_0000 * (b[n + 6] as nat) +
               0x1_0000_0000_0000 * (b[n + 7] as nat)
  {
    AppendSplits(key);
    var b, n := AppendInternalKey([], key), |key.userKey|;
    var t := b[n..];
    assert forall k :: 0 <= k < 8 ==> t[k] == b[n + k];
    assert b[..n] == key.userKey;
    DecodeEight(t);
    assert DecodeFixed(t) == key.sequence * 256 + key.kind.Code();
    assert t[0] as nat == key.kind.Code();
  }

  lemma DecodeEight(t: seq<byte>)
    requires |t| == 8
    ensures DecodeFixed(t) == t[0] as nat + 0x100 * (t[1] as nat) + 0x1_0000 * (t[2] as nat) + 0x100_0000 * (t[3] as nat) +
            0x1_0000_0000 * (t[4] as nat) + 0x100_0000_0000 * (t[5] as nat) + 0x1_0000_0000_0000 * (t[6] as nat) +
            0x100_0000_0000_0000 * (t[7] as nat)
  {
    DecodeFour(t);
    DecodeFour(t[4..]);
    assert t[4..][4..] == [];
  }

  lemma DecodeFour(t: seq<byte>)
    requires |t| >= 4
    ensures DecodeFixed(t) == t[0] as nat + 0x100 * (t[1] as nat) + 0x1_0000 * (t[2] as nat) + 0x100_0000 * (t[3] as nat) +
            0x1_0000_0000 * DecodeFixed(t[4..])
  {
    assert t[1..][1..] == t[2..] && t[2..][1..] == t[3..] && t[3..][1..] == t[4..];
    assert DecodeFixed(t[2..]) == t[2] as nat + 0x100 * (t[3] as nat) + 0x1_0000 * DecodeFixed(t[4..]);
  }

  // ------------------------------------------------------------------
  // Comparison
  // ------------------------------------------------------------------

  function Sign(a: int, b: int): (r: int) {
    if a < b then -1 else if a > b then 1 else 0
  }

  /** The bytewise user comparator: memcmp on the common prefix, then length. */
  function BytewiseCompare(a: seq<byte>, b: seq<byte>): (r: int)
    ensures -1 <= r <= 1
  {
    if a == [] then (if b == [] then 0 else -1)
    else if b == [] then 1
    else if a[0] != b[0] then Sign(a[0] as int, b[0] as int)
    else BytewiseCompare(a[1..], b[1..])
  }

  /** Comparison of encoded internal keys: user key up, packed trailer down. */
  function CompareEncoded(a: seq<byte>, b: seq<byte>): (r: int)
    requires |a| >= 8 && |b| >= 8
  {
    var r := BytewiseCompare(ExtractUserKey(a), ExtractUserKey(b));
    if r != 0 then r else Sign(PackedOf(b), PackedOf(a))
  }

  /** Comparison of parsed internal keys: user key up, sequence down, type down. */
  function CompareParsed(a: ParsedInternalKey, b: ParsedInternalKey): (r: int) {
    var r := BytewiseCompare(a.userKey, b.userKey);
    if r != 0 then r
    else if a.sequence != b.sequence then Sign(b.sequence, a.sequence)
    else Sign(b.kind.Code(), a.kind.Code())
  }

  lemma ComparesAgree(a: ParsedInternalKey, b: ParsedInternalKey)
    requires a.Storable() && b.Storable()
    ensures CompareEncoded(AppendInternalKey([], a), AppendInternalKey([], b)) == CompareParsed(a, b)
  {
    AppendSplits(a);
    AppendSplits(b);
  }

  // ------------------------------------------------------------------
  // Embedding of the bytewise order into the reals
  // ------------------------------------------------------------------

  /** The user key read as a base-257 fraction with digits 1..256. */
  function Rank(k: seq<byte>): (r: real)
    ensures 0.0 <= r < 1.0
    ensures k != [] ==> r > 0.0
  {
    if k == [] then 0.0 else (k[0] as int as real + 1.0 + Rank(k[1..])) / 257.0
  }

  /** Bytewise comparison is comparison of ranks, and a rank determines its key. */
  lemma {:induction false} RankEmbeds(a: seq<byte>, b: seq<byte>)
    ensures BytewiseCompare(a, b) < 0 <==> Rank(a) < Rank(b)
    ensures BytewiseCompare(a, b) > 0 <==> Rank(a) > Rank(b)
    ensures Rank(a) == Rank(b) <==> a == b
  {
    if a != [] && b != [] {
      if a[0] == b[0] {
        RankEmbeds(a[1..], b[1..]);
        assert a == [a[0]] + a[1..] && b == [b[0]] + b[1..];
      } else if a[0] < b[0] {
        assert a[0] as int as real + 1.0 <= b[0] as int as real;
      } else {
        assert b[0] as int as real + 1.0 <= a[0] as int as real;
      }
    }
  }

  /** The rank of a key of one byte. */
  function OneByte(b: byte): (k: real)
    ensures k == Rank([b])
  {
    (b as int as real + 1.0) / 257.0
  }

  /** Comparison of parsed keys is a total order. */
  lemma CompareIsTotalOrder(a: ParsedInternalKey, b: ParsedInternalKey, c: ParsedInternalKey)
    ensures CompareParsed(a, b) == 0 <==> a == b
    ensures CompareParsed(a, b) < 0 <==> CompareParsed(b, a) > 0
    ensures CompareParsed(a, b) <= 0 && CompareParsed(b, c) <= 0 ==> CompareParsed(a, c) <= 0
  {
    RankEmbeds(a.userKey, b.userKey);
    RankEmbeds(b.userKey, a.userKey);
    RankEmbeds(b.userKey, c.userKey);
    RankEmbeds(a.userKey, c.userKey);
  }

  // ------------------------------------------------------------------
  // Entries as the engine sees them
  // ------------------------------------------------------------------

  /** A user key, identified with its rank under the user comparator. */
  type UserKey = real

  type Bytes = seq<byte>

  datatype Entry = Entry(key: UserKey, seqno: nat, kind: ValueType, value: Bytes) {
    predicate Tombstone() { kind == Deletion || kind == SingleDeletion }
  }

  /** Strict internal-key order of entries. */
  predicate Before(a: Entry, b: Entry) {
    || a.key < b.key
    || (a.key == b.key && (a.seqno > b.seqno || (a.seqno == b.seqno && a.kind.Code() > b.kind.Code())))
  }

  /** Strictly increasing user keys, sequences strictly decreasing within a user key. */
  ghost predicate Sorted(es: seq<Entry>) {
    forall i, j :: 0 <= i < j < |es| ==>
      es[i].key < es[j].key || (es[i].key == es[j].key && es[i].seqno > es[j].seqno)
  }

  /** The parsed key an entry stands for orders as the entry does. */
  lemma BeforeIsCompare(a: ParsedInternalKey, b: ParsedInternalKey, v: Bytes, w: Bytes)
    ensures CompareParsed(a, b) < 0 <==>
            Before(Entry(Rank(a.userKey), a.sequence, a.kind, v), Entry(Rank(b.userKey), b.sequence, b.kind, w))
  {
    RankEmbeds(a.userKey, b.userKey);
  }
}
