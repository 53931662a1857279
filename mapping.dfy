/**
 * The key-mapping file that ties generated accessor ids to catalog keys, and
 * the reader that decodes it. The file is a flat run of little-endian
 * 32-bit integers and length-prefixed UTF-8 strings:
 *
 *   idCount, then idCount times (id, key, flag),
 *   pCount,  then pCount  times (id, key).
 *
 * A read past the end, a negative count or length, and bytes that are not
 * UTF-8 stop the program in the original; here they are `Err` results.
 */
module Mapping {
  import opened Utf16

  type Byte = x: int | 0 <= x < 0x100

  const TwoTo31: int := 0x8000_0000
  const TwoTo32: int := 0x1_0000_0000

  predicate IsInt32(v: int) {
    -TwoTo31 <= v < TwoTo31
  }

  /** Four bytes copied into an `Int32` on a little-endian machine (two's complement). */
  function DecodeInt32(b: seq<Byte>): (v: int)
    requires |b| == 4
    ensures IsInt32(v)
  {
    var b0, b1, b2, b3: int := b[0], b[1], b[2], b[3];
    var u := b0 + 0x100 * b1 + 0x1_0000 * b2 + 0x100_0000 * b3;
    if u < TwoTo31 then u else u - TwoTo32
  }

  /** The four bytes that hold `v` in memory, least significant first. */
  function EncodeInt32(v: int): (b: seq<Byte>)
    requires IsInt32(v)
    ensures |b| == 4
  {
    var u := if v < 0 then v + TwoTo32 else v;
    var q1 := u / 0x100;
    var q2 := q1 / 0x100;
    var q3 := q2 / 0x100;
    [u % 0x100, q1 % 0x100, q2 % 0x100, q3]
  }

  /** Division by 256 undoes `0x100 * q + r` for a byte `r`. */
  lemma Split256(u: int, q: int, r: int)
    requires u == 0x100 * q + r && 0 <= r < 0x100
    ensures u / 0x100 == q && u % 0x100 == r
  {
  }

  lemma DecodeEncodeInt32(v: int)
    requires IsInt32(v)
    ensures DecodeInt32(EncodeInt32(v)) == v
  {
    var u := if v < 0 then v + TwoTo32 else v;
    var q1 := u / 0x100;
    var q2 := q1 / 0x100;
    var q3 := q2 / 0x100;
    assert u == u % 0x100 + 0x100 * q1;
    assert q1 == q1 % 0x100 + 0x100 * q2;
    assert q2 == q2 % 0x100 + 0x100 * q3;
  }

  lemma EncodeDecodeInt32(b: seq<Byte>)
    requires |b| == 4
    ensures EncodeInt32(DecodeInt32(b)) == b
  {
    var b0, b1, b2, b3: int := b[0], b[1], b[2], b[3];
    var w2 := b2 + 0x100 * b3;
    var w1 := b1 + 0x100 * w2;
    var u := b0 + 0x100 * w1;
    Split256(u, w1, b0);
    Split256(w1, w2, b1);
    Split256(w2, b3, b2);
    assert u == b0 + 0x100 * b1 + 0x1_0000 * b2 + 0x100_0000 * b3;
  }

  datatype MappingError = ReadPastEnd | NegativeLength | NegativeCount | InvalidUtf8

  /** A value read at some offset, with the offset just past it. */
  datatype Parsed<T> = Parsed(value: T, next: nat)

  /** `readInt32` at offset `p`: four bytes, and the offset moves on by four. */
  function Int32At(data: seq<Byte>, p: nat): (r: Result<Parsed<int>, MappingError>)
    ensures r.Ok? <==> p + 4 <= |data|
    ensures r.Ok? ==> r.value.next == p + 4 && IsInt32(r.value.value)
    ensures r.Err? ==> r.error == ReadPastEnd
  {
    if p + 4 <= |data| then Ok(Parsed(DecodeInt32(data[p..p + 4]), p + 4)) else Err(ReadPastEnd)
  }

  /**
   * `readString` at offset `p`: a length, then that many bytes decoded as
   * UTF-8 by `decode`; the offset moves on by four plus the length.
   */
  function StringAt(data: seq<Byte>, p: nat, decode: seq<Byte> -> Option<Text>): (r: Result<Parsed<Text>, MappingError>)
    ensures r.Ok? ==> p + 4 <= |data| && DecodeInt32(data[p..p + 4]) >= 0
                      && r.value.next == p + 4 + DecodeInt32(data[p..p + 4]) <= |data|
                      && decode(data[p + 4..r.value.next]) == Some(r.value.value)
    ensures p + 4 > |data| ==> r == Err(ReadPastEnd)
  {
    match Int32At(data, p)
    case Err(e) => Err(e)
    case Ok(length) =>
      if length.value < 0 then Err(NegativeLength)
      else if length.next + length.value > |data| then Err(ReadPastEnd)
      else match decode(data[length.next..length.next + length.value])
        case None => Err(InvalidUtf8)
        case Some(t) => Ok(Parsed(t, length.next + length.value))
  }

  /**
   * The reader over the mapping file's bytes; `ptr` is the offset of the
   * next unread byte.
   */
  class DataReader {
    const data: seq<Byte>
    var ptr: nat

    constructor (data: seq<Byte>)
      ensures this.data == data && ptr == 0
    {
      this.data := data;
      ptr := 0;
    }

    method ReadInt32() returns (r: Result<int, MappingError>)
      modifies this
      ensures Int32At(data, old(ptr)) == if r.Ok? then Ok(Parsed(r.value, ptr)) else Err(r.error)
      ensures r.Err? ==> ptr == old(ptr)
    {
      if ptr + 4 > |data| {
        return Err(ReadPastEnd);
      }
      r := Ok(DecodeInt32(data[ptr..ptr + 4]));
      ptr := ptr + 4;
    }

    method ReadString(decode: seq<Byte> -> Option<Text>) returns (r: Result<Text, MappingError>)
      modifies this
      ensures StringAt(data, old(ptr), decode) == if r.Ok? then Ok(Parsed(r.value, ptr)) else Err(r.error)
    {
      var length := ReadInt32();
      if length.Err? {
        return Err(length.error);
      }
      if length.value < 0 {
        return Err(NegativeLength);
      }
      if ptr + length.value > |data| {
        return Err(ReadPastEnd);
      }
      var value := decode(data[ptr..ptr + length.value]);
      if value.None? {
        return Err(InvalidUtf8);
      }
      ptr := ptr + length.value;
      r := Ok(value.value);
    }
  }

  /** One record of the first list: a string id, its key, and whether it takes arguments. */
  datatype StringEntry = StringEntry(id: int, key: Text, flag: int)

  /** One record of the second list: a plural id and its key prefix. */
  datatype PluralEntry = PluralEntry(id: int, key: Text)

  function StringEntryAt(data: seq<Byte>, p: nat, decode: seq<Byte> -> Option<Text>): Result<Parsed<StringEntry>, MappingError>
  {
    match Int32At(data, p)
    case Err(e) => Err(e)
    case Ok(id) =>
      match StringAt(data, id.next, decode)
      case Err(e) => Err(e)
      case Ok(key) =>
        match Int32At(data, key.next)
        case Err(e) => Err(e)
        case Ok(flag) => Ok(Parsed(StringEntry(id.value, key.value, flag.value), flag.next))
  }

  function PluralEntryAt(data: seq<Byte>, p: nat, decode: seq<Byte> -> Option<Text>): Result<Parsed<PluralEntry>, MappingError>
  {
    match Int32At(data, p)
    case Err(e) => Err(e)
    case Ok(id) =>
      match StringAt(data, id.next, decode)
      case Err(e) => Err(e)
      case Ok(key) => Ok(Parsed(PluralEntry(id.value, key.value), key.next))
  }

  /** One record fewer to read. */
  function Fewer(remaining: nat): nat
    requires remaining > 0
  {
    remaining - 1
  }

  /** `remaining` more string records from `p`, appended to those already read. */
  function StringEntriesFrom(data: seq<Byte>, p: nat, remaining: nat, acc: seq<StringEntry>,
                             decode: seq<Byte> -> Option<Text>): Result<Parsed<seq<StringEntry>>, MappingError>
    decreases remaining
  {
    if remaining == 0 then Ok(Parsed(acc, p))
    else match StringEntryAt(data, p, decode)
      case Err(e) => Err(e)
      case Ok(entry) => StringEntriesFrom(data, entry.next, Fewer(remaining), acc + [entry.value], decode)
  }

  function PluralEntriesFrom(data: seq<Byte>, p: nat, remaining: nat, acc: seq<PluralEntry>,
                             decode: seq<Byte> -> Option<Text>): Result<Parsed<seq<PluralEntry>>, MappingError>
    decreases remaining
  {
    if remaining == 0 then Ok(Parsed(acc, p))
    else match PluralEntryAt(data, p, decode)
      case Err(e) => Err(e)
      case Ok(entry) => PluralEntriesFrom(data, entry.next, Fewer(remaining), acc + [entry.value], decode)
  }

  lemma StringEntriesStep(data: seq<Byte>, p: nat, remaining: nat, remaining': nat, acc: seq<StringEntry>,
                          decode: seq<Byte> -> Option<Text>)
    requires remaining > 0 && remaining' == remaining - 1
    ensures var at := StringEntryAt(data, p, decode);
            StringEntriesFrom(data, p, remaining, acc, decode)
            == if at.Err? then Err(at.error) else StringEntriesFrom(data, at.value.next, remaining', acc + [at.value.value], decode)
  {
    assert Fewer(remaining) == remaining';
  }

  lemma PluralEntriesStep(data: seq<Byte>, p: nat, remaining: nat, remaining': nat, acc: seq<PluralEntry>,
                          decode: seq<Byte> -> Option<Text>)
    requires remaining > 0 && remaining' == remaining - 1
    ensures var at := PluralEntryAt(data, p, decode);
            PluralEntriesFrom(data, p, remaining, acc, decode)
            == if at.Err? then Err(at.error) else PluralEntriesFrom(data, at.value.next, remaining', acc + [at.value.value], decode)
  {
    assert Fewer(remaining) == remaining';
  }

  /** The five lists `loadMapping` returns. */
  datatype KeyMapping = KeyMapping(sIds: seq<int>, sKeys: seq<Text>, sArgIds: seq<int>, pIds: seq<int>, pKeys: seq<Text>)

  /** One field of every record, in file order. */
  function Column<R, V>(records: seq<R>, field: R -> V): (column: seq<V>)
    ensures |column| == |records| && forall i | 0 <= i < |records| :: column[i] == field(records[i])
  {
    seq(|records|, i requires 0 <= i < |records| => field(records[i]))
  }

  function StringId(e: StringEntry): int { e.id }
  function StringKey(e: StringEntry): Text { e.key }
  function PluralId(e: PluralEntry): int { e.id }
  function PluralKey(e: PluralEntry): Text { e.key }

  /** The ids of the records whose flag is set, in file order. */
  function ArgIds(es: seq<StringEntry>): seq<int>
  {
    if es == [] then []
    else
      var last := es[|es| - 1];
      ArgIds(es[..|es| - 1]) + if last.flag != 0 then [last.id] else []
  }

  function Tables(strings: seq<StringEntry>, plurals: seq<PluralEntry>): KeyMapping {
    KeyMapping(Column(strings, StringId), Column(strings, StringKey), ArgIds(strings),
               Column(plurals, PluralId), Column(plurals, PluralKey))
  }

  /** The first list: its count at offset 0, then that many string records. */
  function StringSection(data: seq<Byte>, decode: seq<Byte> -> Option<Text>): Result<Parsed<seq<StringEntry>>, MappingError>
  {
    match Int32At(data, 0)
    case Err(e) => Err(e)
    case Ok(idCount) =>
      if idCount.value < 0 then Err(NegativeCount)
      else StringEntriesFrom(data, idCount.next, idCount.value, [], decode)
  }

  /** The second list: its count at offset `p`, then that many plural records. */
  function PluralSection(data: seq<Byte>, p: nat, decode: seq<Byte> -> Option<Text>): Result<Parsed<seq<PluralEntry>>, MappingError>
  {
    match Int32At(data, p)
    case Err(e) => Err(e)
    case Ok(pCount) =>
      if pCount.value < 0 then Err(NegativeCount)
      else PluralEntriesFrom(data, pCount.next, pCount.value, [], decode)
  }

  /** The whole file read front to back, as `loadMapping` does. */
  function ParseMapping(data: seq<Byte>, decode: seq<Byte> -> Option<Text>): Result<KeyMapping, MappingError>
  {
    match StringSection(data, decode)
    case Err(e) => Err(e)
    case Ok(strings) =>
      match PluralSection(data, strings.next, decode)
      case Err(e) => Err(e)
      case Ok(plurals) => Ok(Tables(strings.value, plurals.value))
  }

  /** Appending a record extends a column by that record's field. */
  lemma ColumnAppend<R, V>(records: seq<R>, r: R, field: R -> V)
    ensures Column(records + [r], field) == Column(records, field) + [field(r)]
  {
  }

  /** Appending a record extends the argument ids by its id when its flag is set. */
  lemma ArgIdsAppend(es: seq<StringEntry>, e: StringEntry)
    ensures ArgIds(es + [e]) == ArgIds(es) + if e.flag != 0 then [e.id] else []
  {
    assert (es + [e])[..|es|] == es;
  }

  /** The positions of the records whose flag is set, in file order. */
  function FlaggedPositions(es: seq<StringEntry>): seq<nat>
  {
    if es == [] then []
    else FlaggedPositions(es[..|es| - 1]) + if es[|es| - 1].flag != 0 then [|es| - 1] else []
  }

  /**
   * The argument-id list is the flagged subsequence of the records: its
   * k-th id is the id of the k-th flagged record, the positions ascend, and
   * every flagged record is among them.
   */
  lemma {:induction false} ArgIdsAreFlagged(es: seq<StringEntry>)
    ensures var fs := FlaggedPositions(es);
            |fs| == |ArgIds(es)|
            && (forall k | 0 <= k < |fs| :: fs[k] < |es| && es[fs[k]].flag != 0 && ArgIds(es)[k] == es[fs[k]].id)
            && (forall k, l | 0 <= k < l < |fs| :: fs[k] < fs[l])
            && (forall i | 0 <= i < |es| && es[i].flag != 0 :: i in fs)
  {
    FlaggedPositionsSound(es);
    FlaggedPositionsAscend(es);
    FlaggedPositionsComplete(es);
  }

  lemma {:induction false} FlaggedPositionsSound(es: seq<StringEntry>)
    ensures var fs := FlaggedPositions(es);
            |fs| == |ArgIds(es)|
            && forall k | 0 <= k < |fs| :: fs[k] < |es| && es[fs[k]].flag != 0 && ArgIds(es)[k] == es[fs[k]].id
    decreases |es|
  {
    if es != [] {
      var init := es[..|es| - 1];
      FlaggedPositionsSound(init);
      var fs0 := FlaggedPositions(init);
      forall k | 0 <= k < |fs0|
        ensures es[fs0[k]] == init[fs0[k]]
      {
      }
    }
  }

  lemma {:induction false} FlaggedPositionsAscend(es: seq<StringEntry>)
    ensures var fs := FlaggedPositions(es);
            forall k, l | 0 <= k < l < |fs| :: fs[k] < fs[l]
    decreases |es|
  {
    if es != [] {
      var init := es[..|es| - 1];
      FlaggedPositionsAscend(init);
      FlaggedPositionsSound(init);
    }
  }

  lemma {:induction false} FlaggedPositionsComplete(es: seq<StringEntry>)
    ensures var fs := FlaggedPositions(es);
            forall i | 0 <= i < |es| && es[i].flag != 0 :: i in fs
    decreases |es|
  {
    if es != [] {
      var init := es[..|es| - 1];
      FlaggedPositionsComplete(init);
      var fs := FlaggedPositions(es);
      forall i | 0 <= i < |es| && es[i].flag != 0
        ensures i in fs
      {
        if i < |init| {
          assert init[i] == es[i];
        }
      }
    }
  }

  /** Every argument id is one of the string ids. */
  lemma ArgIdsWithinIds(es: seq<StringEntry>)
    ensures forall x | x in ArgIds(es) :: x in Column(es, StringId)
  {
    ArgIdsAreFlagged(es);
    var fs := FlaggedPositions(es);
    forall x | x in ArgIds(es)
      ensures x in Column(es, StringId)
    {
      var k :| 0 <= k < |ArgIds(es)| && ArgIds(es)[k] == x;
      assert Column(es, StringId)[fs[k]] == x;
    }
  }

  /** What `PresentationStrings.init` relies on: parallel lists of equal length, argument ids among the ids. */
  predicate WellFormed(m: KeyMapping) {
    |m.sKeys| == |m.sIds| && |m.pKeys| == |m.pIds| && forall x | x in m.sArgIds :: x in m.sIds
  }

  lemma {:induction false} StringEntriesCount(data: seq<Byte>, p: nat, remaining: nat, acc: seq<StringEntry>,
                                              decode: seq<Byte> -> Option<Text>)
    requires StringEntriesFrom(data, p, remaining, acc, decode).Ok?
    ensures |StringEntriesFrom(data, p, remaining, acc, decode).value.value| == |acc| + remaining
    decreases remaining
  {
    if remaining > 0 {
      var remaining' := remaining - 1;
      StringEntriesStep(data, p, remaining, remaining', acc, decode);
      var at := StringEntryAt(data, p, decode);
      StringEntriesCount(data, at.value.next, remaining', acc + [at.value.value], decode);
    }
  }

  lemma {:induction false} PluralEntriesCount(data: seq<Byte>, p: nat, remaining: nat, acc: seq<PluralEntry>,
                                              decode: seq<Byte> -> Option<Text>)
    requires PluralEntriesFrom(data, p, remaining, acc, decode).Ok?
    ensures |PluralEntriesFrom(data, p, remaining, acc, decode).value.value| == |acc| + remaining
    decreases remaining
  {
    if remaining > 0 {
      var remaining' := remaining - 1;
      PluralEntriesStep(data, p, remaining, remaining', acc, decode);
      var at := PluralEntryAt(data, p, decode);
      PluralEntriesCount(data, at.value.next, remaining', acc + [at.value.value], decode);
    }
  }

  /**
   * A file that reads successfully yields as many string ids and keys as its
   * first count says, as many plural ids and keys as its second count says,
   * and argument ids that are string ids.
   */
  lemma ParseMappingShape(data: seq<Byte>, decode: seq<Byte> -> Option<Text>)
    requires ParseMapping(data, decode).Ok?
    ensures 4 <= |data| && |ParseMapping(data, decode).value.sIds| == DecodeInt32(data[..4])
    ensures var q := StringSection(data, decode).value.next;
            q + 4 <= |data| && |ParseMapping(data, decode).value.pIds| == DecodeInt32(data[q..q + 4])
    ensures WellFormed(ParseMapping(data, decode).value)
  {
    var idCount := Int32At(data, 0);
    StringEntriesCount(data, 4, idCount.value.value, [], decode);
    var strings := StringSection(data, decode).value;
    ArgIdsWithinIds(strings.value);
    assert data[..4] == data[0..4];
    var pCount := Int32At(data, strings.next);
    PluralEntriesCount(data, strings.next + 4, pCount.value.value, [], decode);
  }

  /** A string record as the generator writes it: key bytes, and the flag as a boolean. */
  datatype StringRecord = StringRecord(id: int, key: seq<Byte>, hasArguments: bool)

  /** A plural record as the generator writes it. */
  datatype PluralRecord = PluralRecord(id: int, key: seq<Byte>)

  predicate WritableKey(k: seq<Byte>) {
    |k| < TwoTo31
  }

  /** Every id fits an `Int32` and every key's length does too. */
  predicate StringRecordsFit(rs: seq<StringRecord>) {
    rs == [] || (IsInt32(rs[0].id) && WritableKey(rs[0].key) && StringRecordsFit(rs[1..]))
  }

  predicate PluralRecordsFit(rs: seq<PluralRecord>) {
    rs == [] || (IsInt32(rs[0].id) && WritableKey(rs[0].key) && PluralRecordsFit(rs[1..]))
  }

  predicate WritableStrings(rs: seq<StringRecord>) {
    |rs| < TwoTo31 && StringRecordsFit(rs)
  }

  predicate WritablePlurals(rs: seq<PluralRecord>) {
    |rs| < TwoTo31 && PluralRecordsFit(rs)
  }

  function EncodeKey(k: seq<Byte>, tail: seq<Byte>): seq<Byte>
    requires WritableKey(k)
  {
    EncodeInt32(|k|) + (k + tail)
  }

  function EncodeStringRecord(r: StringRecord): seq<Byte>
    requires IsInt32(r.id) && WritableKey(r.key)
  {
    EncodeInt32(r.id) + EncodeKey(r.key, EncodeInt32(if r.hasArguments then 1 else 0))
  }

  function EncodeStringRecords(rs: seq<StringRecord>): seq<Byte>
    requires StringRecordsFit(rs)
  {
    if rs == [] then [] else EncodeStringRecord(rs[0]) + EncodeStringRecords(rs[1..])
  }

  function EncodePluralRecord(r: PluralRecord): seq<Byte>
    requires IsInt32(r.id) && WritableKey(r.key)
  {
    EncodeInt32(r.id) + EncodeKey(r.key, [])
  }

  function EncodePluralRecords(rs: seq<PluralRecord>): seq<Byte>
    requires PluralRecordsFit(rs)
  {
    if rs == [] then [] else EncodePluralRecord(rs[0]) + EncodePluralRecords(rs[1..])
  }

  /** The mapping file for the given records, in the layout the reader expects. */
  function EncodeMapping(strings: seq<StringRecord>, plurals: seq<PluralRecord>): seq<Byte>
    requires WritableStrings(strings) && WritablePlurals(plurals)
  {
    EncodeInt32(|strings|) + (EncodeStringRecords(strings) + (EncodeInt32(|plurals|) + EncodePluralRecords(plurals)))
  }

  /** Every key is valid UTF-8. */
  predicate StringKeysDecode(rs: seq<StringRecord>, decode: seq<Byte> -> Option<Text>) {
    rs == [] || (decode(rs[0].key).Some? && StringKeysDecode(rs[1..], decode))
  }

  predicate PluralKeysDecode(rs: seq<PluralRecord>, decode: seq<Byte> -> Option<Text>) {
    rs == [] || (decode(rs[0].key).Some? && PluralKeysDecode(rs[1..], decode))
  }

  function DecodedStrings(rs: seq<StringRecord>, decode: seq<Byte> -> Option<Text>): seq<StringEntry>
    requires StringKeysDecode(rs, decode)
  {
    if rs == [] then []
    else [StringEntry(rs[0].id, decode(rs[0].key).value, if rs[0].hasArguments then 1 else 0)]
         + DecodedStrings(rs[1..], decode)
  }

  function DecodedPlurals(rs: seq<PluralRecord>, decode: seq<Byte> -> Option<Text>): seq<PluralEntry>
    requires PluralKeysDecode(rs, decode)
  {
    if rs == [] then []
    else [PluralEntry(rs[0].id, decode(rs[0].key).value)] + DecodedPlurals(rs[1..], decode)
  }

  /** A slice that holds `a + b` holds `a` then `b`. */
  lemma SliceSplit(data: seq<Byte>, p: nat, q: nat, r: nat, a: seq<Byte>, b: seq<Byte>)
    requires q == p + |a| && r == q + |b| && r <= |data| && data[p..r] == a + b
    ensures data[p..q] == a && data[q..r] == b
  {
    var whole, left, right := data[p..r], data[p..q], data[q..r];
    forall i | 0 <= i < |a| ensures left[i] == a[i] {
      assert left[i] == whole[i];
    }
    forall i | 0 <= i < |b| ensures right[i] == b[i] {
      assert right[i] == whole[|a| + i];
    }
  }

  lemma Int32AtEncoded(data: seq<Byte>, p: nat, p': nat, v: int)
    requires IsInt32(v) && p' == p + 4 && p' <= |data| && data[p..p'] == EncodeInt32(v)
    ensures Int32At(data, p) == Ok(Parsed(v, p'))
  {
    DecodeEncodeInt32(v);
  }

  /** A length-prefixed key followed by `tail`, read at `p`. */
  lemma StringAtEncoded(data: seq<Byte>, p: nat, q: nat, k: seq<Byte>, tail: seq<Byte>, decode: seq<Byte> -> Option<Text>)
    requires WritableKey(k) && decode(k).Some?
    requires q == p + |EncodeKey(k, tail)| && q <= |data| && data[p..q] == EncodeKey(k, tail)
    ensures StringAt(data, p, decode) == Ok(Parsed(decode(k).value, q - |tail|))
    ensures data[q - |tail|..q] == tail
  {
    var p1 := p + 4;
    var p2 := p1 + |k|;
    SliceSplit(data, p, p1, q, EncodeInt32(|k|), k + tail);
    SliceSplit(data, p1, p2, q, k, tail);
    Int32AtEncoded(data, p, p1, |k|);
  }

  lemma StringEntryAtEncoded(data: seq<Byte>, p: nat, q: nat, r: StringRecord, decode: seq<Byte> -> Option<Text>)
    requires IsInt32(r.id) && WritableKey(r.key) && decode(r.key).Some?
    requires q == p + |EncodeStringRecord(r)| && q <= |data| && data[p..q] == EncodeStringRecord(r)
    ensures StringEntryAt(data, p, decode)
            == Ok(Parsed(StringEntry(r.id, decode(r.key).value, if r.hasArguments then 1 else 0), q))
  {
    var flag := if r.hasArguments then 1 else 0;
    var p1 := p + 4;
    var p3 := q - 4;
    SliceSplit(data, p, p1, q, EncodeInt32(r.id), EncodeKey(r.key, EncodeInt32(flag)));
    Int32AtEncoded(data, p, p1, r.id);
    StringAtEncoded(data, p1, q, r.key, EncodeInt32(flag), decode);
    Int32AtEncoded(data, p3, q, flag);
  }

  lemma PluralEntryAtEncoded(data: seq<Byte>, p: nat, q: nat, r: PluralRecord, decode: seq<Byte> -> Option<Text>)
    requires IsInt32(r.id) && WritableKey(r.key) && decode(r.key).Some?
    requires q == p + |EncodePluralRecord(r)| && q <= |data| && data[p..q] == EncodePluralRecord(r)
    ensures PluralEntryAt(data, p, decode) == Ok(Parsed(PluralEntry(r.id, decode(r.key).value), q))
  {
    var p1 := p + 4;
    SliceSplit(data, p, p1, q, EncodeInt32(r.id), EncodeKey(r.key, []));
    Int32AtEncoded(data, p, p1, r.id);
    StringAtEncoded(data, p1, q, r.key, [], decode);
  }

  lemma AppendOne<T>(a: seq<T>, x: T, b: seq<T>)
    ensures (a + [x]) + b == a + ([x] + b)
  {
  }

  /** The first record of an encoded list reads back, and the rest of the list follows it. */
  lemma StringEntriesEncodedHead(data: seq<Byte>, p: nat, p': nat, q: nat, rs: seq<StringRecord>, acc: seq<StringEntry>,
                                 decode: seq<Byte> -> Option<Text>)
    requires rs != [] && StringRecordsFit(rs) && StringKeysDecode(rs, decode)
    requires p' == p + |EncodeStringRecord(rs[0])|
    requires q == p + |EncodeStringRecords(rs)| && q <= |data| && data[p..q] == EncodeStringRecords(rs)
    ensures data[p'..q] == EncodeStringRecords(rs[1..])
    ensures StringEntriesFrom(data, p, |rs|, acc, decode)
            == StringEntriesFrom(data, p', |rs[1..]|, acc + [StringEntry(rs[0].id, decode(rs[0].key).value,
                                                                         if rs[0].hasArguments then 1 else 0)], decode)
  {
    var r, rest := rs[0], rs[1..];
    SliceSplit(data, p, p', q, EncodeStringRecord(r), EncodeStringRecords(rest));
    StringEntryAtEncoded(data, p, p', r, decode);
    StringEntriesStep(data, p, |rs|, |rest|, acc, decode);
  }

  lemma {:induction false} StringEntriesEncoded(data: seq<Byte>, p: nat, q: nat, rs: seq<StringRecord>, acc: seq<StringEntry>,
                                                decode: seq<Byte> -> Option<Text>)
    requires StringRecordsFit(rs) && StringKeysDecode(rs, decode)
    requires q == p + |EncodeStringRecords(rs)| && q <= |data| && data[p..q] == EncodeStringRecords(rs)
    ensures StringEntriesFrom(data, p, |rs|, acc, decode) == Ok(Parsed(acc + DecodedStrings(rs, decode), q))
    decreases |rs|
  {
    if rs == [] {
      assert acc + DecodedStrings(rs, decode) == acc;
    } else {
      var r, rest := rs[0], rs[1..];
      var head := StringEntry(r.id, decode(r.key).value, if r.hasArguments then 1 else 0);
      var p' := p + |EncodeStringRecord(r)|;
      StringEntriesEncodedHead(data, p, p', q, rs, acc, decode);
      StringEntriesEncoded(data, p', q, rest, acc + [head], decode);
      assert DecodedStrings(rs, decode) == [head] + DecodedStrings(rest, decode);
      AppendOne(acc, head, DecodedStrings(rest, decode));
    }
  }

  lemma {:induction false} PluralEntriesEncoded(data: seq<Byte>, p: nat, q: nat, rs: seq<PluralRecord>, acc: seq<PluralEntry>,
                                                decode: seq<Byte> -> Option<Text>)
    requires PluralRecordsFit(rs) && PluralKeysDecode(rs, decode)
    requires q == p + |EncodePluralRecords(rs)| && q <= |data| && data[p..q] == EncodePluralRecords(rs)
    ensures PluralEntriesFrom(data, p, |rs|, acc, decode) == Ok(Parsed(acc + DecodedPlurals(rs, decode), q))
    decreases |rs|
  {
    if rs == [] {
      assert acc + DecodedPlurals(rs, decode) == acc;
    } else {
      var r, rest := rs[0], rs[1..];
      var head := PluralEntry(r.id, decode(r.key).value);
      var p' := p + |EncodePluralRecord(r)|;
      SliceSplit(data, p, p', q, EncodePluralRecord(r), EncodePluralRecords(rest));
      PluralEntryAtEncoded(data, p, p', r, decode);
      PluralEntriesStep(data, p, |rs|, |rest|, acc, decode);
      PluralEntriesEncoded(data, p', q, rest, acc + [head], decode);
      assert DecodedPlurals(rs, decode) == [head] + DecodedPlurals(rest, decode);
      AppendOne(acc, head, DecodedPlurals(rest, decode));
    }
  }

  /** The first list of an encoded file reads back: its count, then its records. */
  lemma StringSectionEncoded(data: seq<Byte>, q: nat, strings: seq<StringRecord>, decode: seq<Byte> -> Option<Text>)
    requires WritableStrings(strings) && StringKeysDecode(strings, decode)
    requires q == 4 + |EncodeStringRecords(strings)| && q <= |data|
    requires data[0..q] == EncodeInt32(|strings|) + EncodeStringRecords(strings)
    ensures StringSection(data, decode) == Ok(Parsed(DecodedStrings(strings, decode), q))
  {
    var p1 := 4;
    SliceSplit(data, 0, p1, q, EncodeInt32(|strings|), EncodeStringRecords(strings));
    Int32AtEncoded(data, 0, p1, |strings|);
    StringEntriesEncoded(data, p1, q, strings, [], decode);
    assert [] + DecodedStrings(strings, decode) == DecodedStrings(strings, decode);
  }

  /** The second list of an encoded file reads back from offset `p`. */
  lemma PluralSectionEncoded(data: seq<Byte>, p: nat, plurals: seq<PluralRecord>, decode: seq<Byte> -> Option<Text>)
    requires WritablePlurals(plurals) && PluralKeysDecode(plurals, decode)
    requires |data| == p + 4 + |EncodePluralRecords(plurals)|
    requires data[p..] == EncodeInt32(|plurals|) + EncodePluralRecords(plurals)
    ensures PluralSection(data, p, decode) == Ok(Parsed(DecodedPlurals(plurals, decode), |data|))
  {
    var p1 := p + 4;
    var end := |data|;
    assert data[p..end] == data[p..];
    SliceSplit(data, p, p1, end, EncodeInt32(|plurals|), EncodePluralRecords(plurals));
    Int32AtEncoded(data, p, p1, |plurals|);
    PluralEntriesEncoded(data, p1, end, plurals, [], decode);
    assert [] + DecodedPlurals(plurals, decode) == DecodedPlurals(plurals, decode);
  }

  /**
   * Round trip: reading the file written for some records gives back those
   * records' ids, decoded keys and argument flags.
   */
  lemma MappingRoundTrip(strings: seq<StringRecord>, plurals: seq<PluralRecord>, decode: seq<Byte> -> Option<Text>)
    requires WritableStrings(strings) && WritablePlurals(plurals)
    requires StringKeysDecode(strings, decode) && PluralKeysDecode(plurals, decode)
    ensures ParseMapping(EncodeMapping(strings, plurals), decode)
            == Ok(Tables(DecodedStrings(strings, decode), DecodedPlurals(plurals, decode)))
  {
    var data := EncodeMapping(strings, plurals);
    var q := 4 + |EncodeStringRecords(strings)|;
    EncodeMappingLayout(strings, plurals, q);
    StringSectionEncoded(data, q, strings, decode);
    PluralSectionEncoded(data, q, plurals, decode);
    ParseMappingSections(data, q, DecodedStrings(strings, decode), DecodedPlurals(plurals, decode), decode);
  }

  /** Where the two lists of an encoded file start and end. */
  lemma EncodeMappingLayout(strings: seq<StringRecord>, plurals: seq<PluralRecord>, q: nat)
    requires WritableStrings(strings) && WritablePlurals(plurals)
    requires q == 4 + |EncodeStringRecords(strings)|
    ensures var data := EncodeMapping(strings, plurals);
            q <= |data| && |data| == q + 4 + |EncodePluralRecords(plurals)|
            && data[0..q] == EncodeInt32(|strings|) + EncodeStringRecords(strings)
            && data[q..] == EncodeInt32(|plurals|) + EncodePluralRecords(plurals)
  {
    var front := EncodeInt32(|strings|) + EncodeStringRecords(strings);
    var back := EncodeInt32(|plurals|) + EncodePluralRecords(plurals);
    assert EncodeMapping(strings, plurals) == front + back;
  }

  /** Reading both lists successfully makes the tables of their records. */
  lemma ParseMappingSections(data: seq<Byte>, q: nat, strings: seq<StringEntry>, plurals: seq<PluralEntry>,
                             decode: seq<Byte> -> Option<Text>)
    requires StringSection(data, decode) == Ok(Parsed(strings, q))
    requires PluralSection(data, q, decode) == Ok(Parsed(plurals, |data|))
    ensures ParseMapping(data, decode) == Ok(Tables(strings, plurals))
  {
  }

  /**
   * `loadMapping`: reads the counts and the records through a `DataReader`
   * and builds the five lists.
   */
  method LoadMapping(data: seq<Byte>, decode: seq<Byte> -> Option<Text>) returns (r: Result<KeyMapping, MappingError>)
    ensures r == ParseMapping(data, decode)
  {
    var reader := new DataReader(data);
    var idCount := reader.ReadInt32();
    if idCount.Err? {
      return Err(idCount.error);
    }
    if idCount.value < 0 {
      return Err(NegativeCount);
    }
    var sIdList: seq<int> := [];
    var sKeyList: seq<Text> := [];
    var sArgIdList: seq<int> := [];
    ghost var entries: seq<StringEntry> := [];
    ghost var remaining: nat := idCount.value;
    for k := 0 to idCount.value
      invariant reader.data == data
      invariant remaining == idCount.value - k
      invariant StringSection(data, decode) == StringEntriesFrom(data, reader.ptr, remaining, entries, decode)
      invariant sIdList == Column(entries, StringId) && sKeyList == Column(entries, StringKey)
      invariant sArgIdList == ArgIds(entries)
    {
      ghost var p := reader.ptr;
      ghost var remaining' := remaining - 1;
      StringEntriesStep(data, p, remaining, remaining', entries, decode);
      var id := reader.ReadInt32();
      if id.Err? {
        assert StringEntryAt(data, p, decode) == Err(id.error);
        return Err(id.error);
      }
      ghost var afterId := reader.ptr;
      var key := reader.ReadString(decode);
      if key.Err? {
        assert StringEntryAt(data, p, decode) == Err(key.error);
        return Err(key.error);
      }
      ghost var afterKey := reader.ptr;
      var flag := reader.ReadInt32();
      if flag.Err? {
        assert StringEntryAt(data, p, decode) == Err(flag.error);
        return Err(flag.error);
      }
      assert StringEntryAt(data, p, decode) == Ok(Parsed(StringEntry(id.value, key.value, flag.value), reader.ptr));
      sIdList := sIdList + [id.value];
      sKeyList := sKeyList + [key.value];
      if flag.value != 0 {
        sArgIdList := sArgIdList + [id.value];
      }
      ghost var entry := StringEntry(id.value, key.value, flag.value);
      ColumnAppend(entries, entry, StringId);
      ColumnAppend(entries, entry, StringKey);
      ArgIdsAppend(entries, entry);
      entries := entries + [StringEntry(id.value, key.value, flag.value)];
      remaining := remaining';
    }
    ghost var stringsEnd := reader.ptr;
    var pCount := reader.ReadInt32();
    if pCount.Err? {
      return Err(pCount.error);
    }
    if pCount.value < 0 {
      return Err(NegativeCount);
    }
    var pIdList: seq<int> := [];
    var pKeyList: seq<Text> := [];
    ghost var plurals: seq<PluralEntry> := [];
    remaining := pCount.value;
    for k := 0 to pCount.value
      invariant reader.data == data
      invariant remaining == pCount.value - k
      invariant StringSection(data, decode) == Ok(Parsed(entries, stringsEnd))
      invariant PluralSection(data, stringsEnd, decode) == PluralEntriesFrom(data, reader.ptr, remaining, plurals, decode)
      invariant pIdList == Column(plurals, PluralId) && pKeyList == Column(plurals, PluralKey)
    {
      ghost var p := reader.ptr;
      ghost var remaining' := remaining - 1;
      PluralEntriesStep(data, p, remaining, remaining', plurals, decode);
      var id := reader.ReadInt32();
      if id.Err? {
        assert PluralEntryAt(data, p, decode) == Err(id.error);
        return Err(id.error);
      }
      ghost var afterId := reader.ptr;
      var key := reader.ReadString(decode);
      if key.Err? {
        assert PluralEntryAt(data, p, decode) == Err(key.error);
        return Err(key.error);
      }
      assert PluralEntryAt(data, p, decode) == Ok(Parsed(PluralEntry(id.value, key.value), reader.ptr));
      pIdList := pIdList + [id.value];
      pKeyList := pKeyList + [key.value];
      ghost var entry := PluralEntry(id.value, key.value);
      ColumnAppend(plurals, entry, PluralId);
      ColumnAppend(plurals, entry, PluralKey);
      plurals := plurals + [PluralEntry(id.value, key.value)];
      remaining := remaining';
    }
    r := Ok(KeyMapping(sIdList, sKeyList, sArgIdList, pIdList, pKeyList));
  }
}
