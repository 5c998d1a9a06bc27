/** The chunk record shared by DataTool.Chunk and DataBlock: a list of
    occurrence ids closed by a 0 varint, four big-endian sort-key ints when
    the stream carries keys, a varint payload length, then the payload.
    A record whose id list is empty is the sentinel that ends a segment.
    A segment is a run of records closed by that sentinel. */
module RecordFormat {
  import opened Base
  import opened VarLong

  /** A chunk (DataTool) or data block (DataProcessor side): occurrence ids,
      the optional four-int sort key (`null` in Java when absent), payload. */
  datatype Record = Record(ids: seq<i64>, key: Option<seq<i32>>, payload: seq<byte>)

  /** What a record read from a stream with (`withKey`) or without sort keys
      looks like: a non-empty id list and a key exactly when keys are read. */
  predicate Family(withKey: bool, r: Record)
  {
    |r.ids| >= 1 && (if withKey then r.key.Some? && |r.key.value| == 4 else r.key.None?)
  }

  /** What a writer needs for its record to read back: no id is the 0 that
      ends an id list, the payload fits a Java array, and the key is there
      when it is to be written. */
  predicate Storable(r: Record, withKey: bool)
  {
    && |r.ids| >= 1
    && (forall i :: 0 <= i < |r.ids| ==> r.ids[i] != 0)
    && |r.payload| <= MAX_ARRAY
    && (withKey ==> r.key.Some? && |r.key.value| == 4)
  }

  /** The record as a reader sees it: the key survives only if written. */
  function Stored(r: Record, withKey: bool): Record
  {
    if withKey then r else r.(key := None)
  }

  function StoredAll(recs: seq<Record>, withKey: bool): (r: seq<Record>)
    ensures |r| == |recs|
  {
    if recs == [] then [] else [Stored(recs[0], withKey)] + StoredAll(recs[1..], withKey)
  }

  // ---------------------------------------------------------------------
  // Encoding (Chunk.write)
  // ---------------------------------------------------------------------

  function EncodeIds(ids: seq<i64>): seq<byte>
  {
    if ids == [] then [] else Encode(U64(ids[0])) + EncodeIds(ids[1..])
  }

  function EncodeKey(key: seq<i32>): seq<byte>
  {
    if key == [] then [] else BigEndian32(key[0]) + EncodeKey(key[1..])
  }

  /** What follows the id list: the key when written, the payload length, the payload. */
  function EncodeTail(r: Record, withKey: bool): seq<byte>
  {
    (if withKey && r.key.Some? then EncodeKey(r.key.value) else []) + Encode(|r.payload|) + r.payload
  }

  /** The bytes Chunk.write emits for `r`. */
  function EncodeRecord(r: Record, withKey: bool): seq<byte>
  {
    EncodeIds(r.ids) + Encode(0) + EncodeTail(r, withKey)
  }

  function EncodeRecords(recs: seq<Record>, withKey: bool): seq<byte>
  {
    if recs == [] then [] else EncodeRecord(recs[0], withKey) + EncodeRecords(recs[1..], withKey)
  }

  /** A segment: its records and the closing 0. */
  function EncodeSegment(recs: seq<Record>, withKey: bool): seq<byte>
  {
    EncodeRecords(recs, withKey) + Encode(0)
  }

  lemma {:induction false} EncodeRecordsAppend(a: seq<Record>, b: seq<Record>, withKey: bool)
    ensures EncodeRecords(a + b, withKey) == EncodeRecords(a, withKey) + EncodeRecords(b, withKey)
  {
    if a == [] {
      assert a + b == b;
    } else {
      assert (a + b)[1..] == a[1..] + b;
      EncodeRecordsAppend(a[1..], b, withKey);
    }
  }

  // ---------------------------------------------------------------------
  // Decoding (Chunk.read, DataBlock.readFrom)
  // ---------------------------------------------------------------------

  /** Outcome of reading one record: the sentinel (Java returns null and
      closes the stream) or a record, each with the bytes consumed. */
  datatype Parsed = End(size: nat) | Item(record: Record, size: nat)

  /** A piece read off the front of a stream, with the bytes it took. */
  datatype IdList = IdList(ids: seq<i64>, size: nat)
  datatype Bytes = Bytes(bytes: seq<byte>, size: nat)
  datatype Tail = Tail(key: Option<seq<i32>>, payload: seq<byte>, size: nat)

  /** Reads varints up to and including the first 0: the ids before it and
      the bytes consumed. */
  function ParseIds(s: seq<byte>): (r: Result<IdList>)
    ensures r.Ok? ==> 1 <= r.value.size <= |s|
    decreases |s|
  {
    match Decode(s)
    case Err(e) => Err(e)
    case Ok(Decoded(v, n)) =>
      if v == 0 then Ok(IdList([], n))
      else
        match ParseIds(s[n..])
        case Err(e) => Err(e)
        case Ok(IdList(more, m)) => Ok(IdList([v] + more, n + m))
  }

  /** `count` readInt calls. */
  function ParseInts(s: seq<byte>, count: nat): (r: Result<seq<i32>>)
    ensures r.Ok? ==> |r.value| == count && |s| >= 4 * count
  {
    if count == 0 then Ok([])
    else if |s| < 4 then Err(Eof)
    else
      match ParseInts(s[4..], count - 1)
      case Err(e) => Err(e)
      case Ok(more) => Ok([ReadBigEndian32(s)] + more)
  }

  /** The payload after the ids and the key: `(int) readVarLong` bytes, a
      negative int being NegativeArraySizeException and a short stream EOF. */
  function ParsePayload(s: seq<byte>): (r: Result<Bytes>)
    ensures r.Ok? ==> r.value.size <= |s| && |r.value.bytes| <= MAX_ARRAY
  {
    match Decode(s)
    case Err(e) => Err(e)
    case Ok(Decoded(v, n)) =>
      var len := ToI32(v);
      if len < 0 then Err(NegativeArraySize)
      else if |s| - n < len then Err(Eof)
      else Ok(Bytes(s[n..n + len], n + len))
  }

  /** What follows a non-empty id list: the key (when keys are read), then
      the length-prefixed payload; with the bytes consumed. */
  function ParseTail(s: seq<byte>, withKey: bool): (r: Result<Tail>)
    ensures r.Ok? ==> r.value.size <= |s|
    ensures r.Ok? ==> if withKey then r.value.key.Some? && |r.value.key.value| == 4 else r.value.key.None?
  {
    if withKey then
      match ParseInts(s, 4)
      case Err(e) => Err(e)
      case Ok(key) =>
        match ParsePayload(s[16..])
        case Err(e) => Err(e)
        case Ok(Bytes(payload, m)) => Ok(Tail(Some(key), payload, 16 + m))
    else
      match ParsePayload(s)
      case Err(e) => Err(e)
      case Ok(Bytes(payload, m)) => Ok(Tail(None, payload, m))
  }

  /** Chunk.read / DataBlock.readFrom on a stream whose remaining bytes are `s`. */
  function ParseRecord(s: seq<byte>, withKey: bool): (r: Result<Parsed>)
    ensures r.Ok? && r.value.Item? ==> 1 <= r.value.size <= |s| && Family(withKey, r.value.record)
    ensures r.Ok? && r.value.End? ==> 1 <= r.value.size <= |s|
  {
    match ParseIds(s)
    case Err(e) => Err(e)
    case Ok(IdList(ids, n)) =>
      if ids == [] then Ok(End(n))
      else
        match ParseTail(s[n..], withKey)
        case Err(e) => Err(e)
        case Ok(Tail(key, payload, m)) => Ok(Item(Record(ids, key, payload), n + m))
  }

  /** Reads the records of a segment up to its sentinel. */
  function ParseSegment(s: seq<byte>, withKey: bool): (r: Result<seq<Record>>)
    ensures r.Ok? ==> forall i :: 0 <= i < |r.value| ==> Family(withKey, r.value[i])
    decreases |s|
  {
    match ParseRecord(s, withKey)
    case Err(e) => Err(e)
    case Ok(End(_)) => Ok([])
    case Ok(Item(rec, n)) =>
      match ParseSegment(s[n..], withKey)
      case Err(e) => Err(e)
      case Ok(more) => Ok([rec] + more)
  }

  // ---------------------------------------------------------------------
  // Reading step by step
  // ---------------------------------------------------------------------

  /** The id list of a stream of which `ids` were already read, in `pos` bytes,
      when the rest of the list reads as `r`. */
  function AfterIds(ids: seq<i64>, pos: nat, r: Result<IdList>): Result<IdList>
  {
    match r
    case Err(e) => Err(e)
    case Ok(IdList(more, m)) => Ok(IdList(ids + more, pos + m))
  }

  lemma {:induction false} AfterIdsCompose(ids: seq<i64>, pos: nat, v: i64, n: nat, r: Result<IdList>)
    ensures AfterIds(ids, pos, AfterIds([v], n, r)) == AfterIds(ids + [v], pos + n, r)
  {
    if r.Ok? {
      assert ids + ([v] + r.value.ids) == (ids + [v]) + r.value.ids;
    }
  }

  /** ParseIds unfolded once, on the closing 0 ... */
  lemma {:induction false} ParseIdsEnd(s: seq<byte>)
    requires Decode(s).Ok? && Decode(s).value.value == 0
    ensures ParseIds(s) == Ok(IdList([], Decode(s).value.size))
  {
  }

  /** ... and on an id. */
  lemma {:induction false} ParseIdsMore(s: seq<byte>)
    requires Decode(s).Ok? && Decode(s).value.value != 0
    ensures ParseIds(s) == AfterIds([Decode(s).value.value], Decode(s).value.size, ParseIds(s[Decode(s).value.size..]))
  {
  }

  /** Reading the closing 0 of the id list ... */
  lemma {:induction false} ParseIdsStepEnd(s: seq<byte>, ids: seq<i64>, pos: nat)
    requires Decode(s).Ok? && Decode(s).value.value == 0
    ensures AfterIds(ids, pos, ParseIds(s)) == Ok(IdList(ids, pos + Decode(s).value.size))
  {
    ParseIdsEnd(s);
    assert ids + [] == ids;
  }

  /** ... and reading one more id. */
  lemma {:induction false} ParseIdsStepMore(s: seq<byte>, ids: seq<i64>, pos: nat)
    requires Decode(s).Ok? && Decode(s).value.value != 0
    ensures AfterIds(ids, pos, ParseIds(s))
            == AfterIds(ids + [Decode(s).value.value], pos + Decode(s).value.size, ParseIds(s[Decode(s).value.size..]))
  {
    ParseIdsMore(s);
    var d := Decode(s).value;
    AfterIdsCompose(ids, pos, d.value, d.size, ParseIds(s[d.size..]));
  }

  lemma {:induction false} ParseIdsFail(s: seq<byte>)
    requires Decode(s).Err?
    ensures ParseIds(s) == Err(Decode(s).error)
  {
  }

  lemma {:induction false} AfterIdsStart(r: Result<IdList>)
    ensures AfterIds([], 0, r) == r
  {
    if r.Ok? {
      assert [] + r.value.ids == r.value.ids;
    }
  }

  /** One varint read by an id loop (Chunk.read, DataBlock.readFrom): an
      error ends the read, the closing 0 ends the list, and any other id joins it. */
  lemma {:induction false} ReadIdsStep(input: seq<byte>, pos: nat, ids: seq<i64>)
    requires pos <= |input|
    requires ParseIds(input) == AfterIds(ids, pos, ParseIds(input[pos..]))
    ensures Decode(input[pos..]).Err? ==> ParseIds(input) == Err(Decode(input[pos..]).error)
    ensures Decode(input[pos..]).Ok? ==>
              var d := Decode(input[pos..]).value;
              pos + d.size <= |input| &&
              (d.value == 0 ==> ParseIds(input) == Ok(IdList(ids, pos + d.size))) &&
              (d.value != 0 ==>
                 ParseIds(input) == AfterIds(ids + [d.value], pos + d.size, ParseIds(input[pos + d.size..])))
  {
    var s := input[pos..];
    if Decode(s).Err? {
      ParseIdsFail(s);
    } else if Decode(s).value.value == 0 {
      ParseIdsStepEnd(s, ids, pos);
    } else {
      ParseIdsStepMore(s, ids, pos);
      assert s[Decode(s).value.size..] == input[pos + Decode(s).value.size..];
    }
  }

  function AfterInts(key: seq<i32>, r: Result<seq<i32>>): Result<seq<i32>>
  {
    match r
    case Err(e) => Err(e)
    case Ok(more) => Ok(key + more)
  }

  /** DataInputStream.readInt, `count` times. */
  method ReadInts(s: seq<byte>, count: nat) returns (r: Result<seq<i32>>)
    ensures r == ParseInts(s, count)
  {
    var key: seq<i32> := [];
    var i := 0;
    assert s[4 * i..] == s;
    if ParseInts(s, count).Ok? {
      assert key + ParseInts(s, count).value == ParseInts(s, count).value;
    }
    while i < count
      invariant 0 <= i <= count && 4 * i <= |s|
      invariant ParseInts(s, count) == AfterInts(key, ParseInts(s[4 * i..], count - i))
      decreases count - i
    {
      var t := s[4 * i..];
      if |t| < 4 {
        return Err(Eof);
      }
      var x := ReadBigEndian32(t);
      var rest := ParseInts(t[4..], count - i - 1);
      if rest.Ok? {
        assert key + ([x] + rest.value) == (key + [x]) + rest.value;
      }
      assert t[4..] == s[4 * (i + 1)..];
      key := key + [x];
      i := i + 1;
    }
    assert key + [] == key;
    return Ok(key);
  }

  // ---------------------------------------------------------------------
  // Round trips
  // ---------------------------------------------------------------------

  /** ParseIds on a stream that starts with an id and goes on with an id list. */
  lemma {:induction false} ParseIdsCons(s: seq<byte>, v: i64, n: nat, more: seq<i64>, m: nat, ids: seq<i64>, size: nat)
    requires Decode(s) == Ok(Decoded(v, n)) && v != 0
    requires ParseIds(s[n..]) == Ok(IdList(more, m))
    requires ids == [v] + more && size == n + m
    ensures ParseIds(s) == Ok(IdList(ids, size))
  {
    ParseIdsMore(s);
  }

  /** One more id in front of an id list that reads back. */
  lemma {:induction false} ParseIdsPrepend(v: i64, tail: seq<byte>, more: seq<i64>, m: nat, s: seq<byte>, size: nat)
    requires v != 0
    requires ParseIds(tail) == Ok(IdList(more, m))
    requires s == Encode(U64(v)) + tail && size == |Encode(U64(v))| + m
    ensures ParseIds(s) == Ok(IdList([v] + more, size))
  {
    var n := |Encode(U64(v))|;
    EncodeDecode(v, tail);
    assert s[n..] == tail;
    ParseIdsCons(s, v, n, more, m, [v] + more, n + m);
  }

  lemma {:induction false} EncodeIdsCons(ids: seq<i64>, rest: seq<byte>)
    requires ids != []
    ensures EncodeIds(ids) + Encode(0) + rest == Encode(U64(ids[0])) + (EncodeIds(ids[1..]) + Encode(0) + rest)
    ensures |EncodeIds(ids) + Encode(0)| == |Encode(U64(ids[0]))| + |EncodeIds(ids[1..]) + Encode(0)|
  {
    Associate(Encode(U64(ids[0])), EncodeIds(ids[1..]), Encode(0), rest);
  }

  lemma {:induction false} Associate(a: seq<byte>, b: seq<byte>, c: seq<byte>, d: seq<byte>)
    ensures (a + b) + c + d == a + (b + c + d)
  {
  }

  lemma {:induction false} ParseIdsEncodedCons(ids: seq<i64>, rest: seq<byte>)
    requires ids != [] && ids[0] != 0
    requires ParseIds(EncodeIds(ids[1..]) + Encode(0) + rest) == Ok(IdList(ids[1..], |EncodeIds(ids[1..]) + Encode(0)|))
    ensures ParseIds(EncodeIds(ids) + Encode(0) + rest) == Ok(IdList(ids, |EncodeIds(ids) + Encode(0)|))
  {
    EncodeIdsCons(ids, rest);
    assert [ids[0]] + ids[1..] == ids;
    ParseIdsPrepend(ids[0], EncodeIds(ids[1..]) + Encode(0) + rest, ids[1..], |EncodeIds(ids[1..]) + Encode(0)|,
                    EncodeIds(ids) + Encode(0) + rest, |EncodeIds(ids) + Encode(0)|);
  }

  lemma {:induction false} ParseIdsEncodedNil(rest: seq<byte>)
    ensures ParseIds(Encode(0) + rest) == Ok(IdList([], |Encode(0)|))
  {
    EncodeDecode(0, rest);
    ParseIdsEnd(Encode(0) + rest);
  }

  lemma {:induction false} ParseIdsEncoded(ids: seq<i64>, rest: seq<byte>)
    requires forall i :: 0 <= i < |ids| ==> ids[i] != 0
    ensures ParseIds(EncodeIds(ids) + Encode(0) + rest) == Ok(IdList(ids, |EncodeIds(ids) + Encode(0)|))
  {
    if ids == [] {
      ParseIdsEncodedNil(rest);
      assert EncodeIds(ids) + Encode(0) + rest == Encode(0) + rest;
    } else {
      ParseIdsEncoded(ids[1..], rest);
      ParseIdsEncodedCons(ids, rest);
    }
  }

  lemma {:induction false} ParseIntsEncoded(key: seq<i32>, rest: seq<byte>)
    ensures |EncodeKey(key)| == 4 * |key|
    ensures ParseInts(EncodeKey(key) + rest, |key|) == Ok(key)
  {
    if key != [] {
      var s := EncodeKey(key) + rest;
      ParseIntsEncoded(key[1..], rest);
      assert s == BigEndian32(key[0]) + (EncodeKey(key[1..]) + rest);
      BigEndian32RoundTrip(key[0], EncodeKey(key[1..]) + rest);
      assert s[4..] == EncodeKey(key[1..]) + rest;
      assert [key[0]] + key[1..] == key;
    }
  }

  lemma {:induction false} ParsePayloadAt(s: seq<byte>, n: nat, payload: seq<byte>, size: nat)
    requires |payload| <= MAX_ARRAY && Decode(s) == Ok(Decoded(|payload|, n))
    requires n + |payload| <= |s| && s[n..n + |payload|] == payload && size == n + |payload|
    ensures ParsePayload(s) == Ok(Bytes(payload, size))
  {
    ToI32Mod(|payload|);
  }

  lemma {:induction false} ParsePayloadEncoded(payload: seq<byte>, rest: seq<byte>)
    requires |payload| <= MAX_ARRAY
    ensures ParsePayload(Encode(|payload|) + payload + rest) == Ok(Bytes(payload, |Encode(|payload|) + payload|))
  {
    var e := Encode(|payload|);
    var s := e + payload + rest;
    assert U64(|payload|) == |payload|;
    EncodeDecode(|payload|, payload + rest);
    assert s == e + (payload + rest);
    assert s[|e|..|e| + |payload|] == payload;
    ParsePayloadAt(s, |e|, payload, |e + payload|);
  }

  // One unfolding of each parser, stated with the expected result as a
  // parameter so that callers can name it in the form they need.

  lemma {:induction false} ParseTailKeyed(s: seq<byte>, key: seq<i32>, payload: seq<byte>, m: nat, tail: Tail)
    requires ParseInts(s, 4) == Ok(key) && |s| >= 16
    requires ParsePayload(s[16..]) == Ok(Bytes(payload, m))
    requires tail == Tail(Some(key), payload, 16 + m)
    ensures ParseTail(s, true) == Ok(tail)
  {
  }

  lemma {:induction false} ParseTailPlain(s: seq<byte>, payload: seq<byte>, m: nat, tail: Tail)
    requires ParsePayload(s) == Ok(Bytes(payload, m))
    requires tail == Tail(None, payload, m)
    ensures ParseTail(s, false) == Ok(tail)
  {
  }

  lemma {:induction false} ParseRecordItem(s: seq<byte>, withKey: bool, ids: seq<i64>, n: nat, key: Option<seq<i32>>, payload: seq<byte>, m: nat, parsed: Parsed)
    requires ParseIds(s) == Ok(IdList(ids, n)) && ids != []
    requires ParseTail(s[n..], withKey) == Ok(Tail(key, payload, m))
    requires parsed == Item(Record(ids, key, payload), n + m)
    ensures ParseRecord(s, withKey) == Ok(parsed)
  {
  }

  /** The record read after the id list `ids` of `n` bytes, given what the rest reads as. */
  function WithIds(ids: seq<i64>, n: nat, t: Result<Tail>): Result<Parsed>
  {
    match t
    case Err(e) => Err(e)
    case Ok(Tail(key, payload, m)) => Ok(Item(Record(ids, key, payload), n + m))
  }

  lemma {:induction false} ParseRecordTail(s: seq<byte>, withKey: bool, ids: seq<i64>, n: nat)
    requires ParseIds(s) == Ok(IdList(ids, n)) && ids != []
    ensures n <= |s|
    ensures ParseRecord(s, withKey) == WithIds(ids, n, ParseTail(s[n..], withKey))
  {
  }

  lemma {:induction false} ParseRecordEnd(s: seq<byte>, withKey: bool, n: nat)
    requires ParseIds(s) == Ok(IdList([], n))
    ensures ParseRecord(s, withKey) == Ok(End(n))
  {
  }

  lemma {:induction false} ParseSegmentEnd(s: seq<byte>, withKey: bool, n: nat)
    requires ParseRecord(s, withKey) == Ok(End(n))
    ensures ParseSegment(s, withKey) == Ok([])
  {
  }

  lemma {:induction false} ParseSegmentCons(s: seq<byte>, withKey: bool, rec: Record, n: nat, more: seq<Record>, recs: seq<Record>)
    requires ParseRecord(s, withKey) == Ok(Item(rec, n))
    requires ParseSegment(s[n..], withKey) == Ok(more)
    requires recs == [rec] + more
    ensures ParseSegment(s, withKey) == Ok(recs)
  {
  }

  lemma {:induction false} ParseKeyedTailEncoded(r: Record, rest: seq<byte>)
    requires Storable(r, true)
    ensures ParseTail(EncodeTail(r, true) + rest, true) == Ok(Tail(r.key, r.payload, |EncodeTail(r, true)|))
  {
    var key := r.key.value;
    var body := Encode(|r.payload|) + r.payload;
    var s := EncodeTail(r, true) + rest;
    assert s == EncodeKey(key) + (body + rest);
    ParseIntsEncoded(key, body + rest);
    assert s[16..] == body + rest;
    ParsePayloadEncoded(r.payload, rest);
    ParseTailKeyed(s, key, r.payload, |body|, Tail(r.key, r.payload, |EncodeTail(r, true)|));
  }

  lemma {:induction false} ParseTailEncoded(r: Record, withKey: bool, rest: seq<byte>)
    requires Storable(r, withKey)
    ensures ParseTail(EncodeTail(r, withKey) + rest, withKey)
            == Ok(Tail(Stored(r, withKey).key, r.payload, |EncodeTail(r, withKey)|))
  {
    if withKey {
      ParseKeyedTailEncoded(r, rest);
    } else {
      ParsePayloadEncoded(r.payload, rest);
      assert EncodeTail(r, withKey) == Encode(|r.payload|) + r.payload;
      ParseTailPlain(EncodeTail(r, withKey) + rest, r.payload, |EncodeTail(r, withKey)|,
                     Tail(Stored(r, withKey).key, r.payload, |EncodeTail(r, withKey)|));
    }
  }

  /** Chunk.read (with `readKey == writeKey`) gives back what Chunk.write wrote. */
  lemma {:induction false} RecordRoundTrip(r: Record, withKey: bool, rest: seq<byte>)
    requires Storable(r, withKey)
    ensures ParseRecord(EncodeRecord(r, withKey) + rest, withKey)
            == Ok(Item(Stored(r, withKey), |EncodeRecord(r, withKey)|))
  {
    var idBytes := EncodeIds(r.ids) + Encode(0);
    var tail := EncodeTail(r, withKey);
    var s := EncodeRecord(r, withKey) + rest;
    assert s == idBytes + (tail + rest);
    ParseIdsEncoded(r.ids, tail + rest);
    assert s[|idBytes|..] == tail + rest;
    ParseTailEncoded(r, withKey, rest);
    assert Stored(r, withKey) == Record(r.ids, Stored(r, withKey).key, r.payload);
    ParseRecordItem(s, withKey, r.ids, |idBytes|, Stored(r, withKey).key, r.payload, |tail|,
                    Item(Stored(r, withKey), |EncodeRecord(r, withKey)|));
  }

  /** The sentinel reads back as the end of the segment. */
  lemma {:induction false} ParseSentinel(rest: seq<byte>, withKey: bool)
    ensures ParseRecord(Encode(0) + rest, withKey) == Ok(End(|Encode(0)|))
  {
    assert Encode(0) + rest == EncodeIds([]) + Encode(0) + rest;
    ParseIdsEncoded([], rest);
    ParseRecordEnd(Encode(0) + rest, withKey, |Encode(0)|);
  }

  /** A segment reads back as the records written into it, whatever follows it. */
  lemma {:induction false} SegmentRoundTrip(recs: seq<Record>, withKey: bool, rest: seq<byte>)
    requires forall i :: 0 <= i < |recs| ==> Storable(recs[i], withKey)
    ensures ParseSegment(EncodeSegment(recs, withKey) + rest, withKey)
            == Ok(StoredAll(recs, withKey))
  {
    var s := EncodeSegment(recs, withKey) + rest;
    if recs == [] {
      assert s == Encode(0) + rest;
      ParseSentinel(rest, withKey);
      ParseSegmentEnd(s, withKey, |Encode(0)|);
    } else {
      assert Storable(recs[0], withKey);
      var head := EncodeRecord(recs[0], withKey);
      var tail := EncodeSegment(recs[1..], withKey) + rest;
      assert s == head + tail;
      RecordRoundTrip(recs[0], withKey, tail);
      assert s[|head|..] == tail;
      SegmentRoundTrip(recs[1..], withKey, rest);
      ParseSegmentCons(s, withKey, Stored(recs[0], withKey), |head|, StoredAll(recs[1..], withKey),
                       StoredAll(recs, withKey));
    }
  }

  /** An id list read back never holds the 0 that closes it. */
  lemma {:induction false} ParseIdsNonZero(s: seq<byte>)
    ensures ParseIds(s).Ok? ==> forall i :: 0 <= i < |ParseIds(s).value.ids| ==> ParseIds(s).value.ids[i] != 0
    decreases |s|
  {
    if Decode(s).Ok? && Decode(s).value.value != 0 {
      ParseIdsNonZero(s[Decode(s).value.size..]);
    }
  }

  /** A record read back could be written again as it is. */
  lemma {:induction false} ParseRecordStorable(s: seq<byte>, withKey: bool)
    requires ParseRecord(s, withKey).Ok? && ParseRecord(s, withKey).value.Item?
    ensures Storable(ParseRecord(s, withKey).value.record, withKey)
  {
    ParseIdsNonZero(s);
  }

  /** The segment of a stream of which the records `done` were already
      read, when the rest of it reads as `r`. */
  function AfterRecs(done: seq<Record>, r: Result<seq<Record>>): Result<seq<Record>>
  {
    match r
    case Err(e) => Err(e)
    case Ok(more) => Ok(done + more)
  }

  lemma {:induction false} AfterRecsCompose(a: seq<Record>, b: seq<Record>, r: Result<seq<Record>>)
    ensures AfterRecs(a, AfterRecs(b, r)) == AfterRecs(a + b, r)
  {
    if r.Ok? {
      assert a + (b + r.value) == (a + b) + r.value;
    }
  }

  /** ParseSegment after one read: the read's error, the end, or the
      record read followed by the segment after it. */
  lemma {:induction false} SegmentUnfold(s: seq<byte>, withKey: bool)
    ensures ParseRecord(s, withKey).Err? ==> ParseSegment(s, withKey) == Err(ParseRecord(s, withKey).error)
    ensures ParseRecord(s, withKey).Ok? && ParseRecord(s, withKey).value.End? ==> ParseSegment(s, withKey) == Ok([])
    ensures ParseRecord(s, withKey).Ok? && ParseRecord(s, withKey).value.Item? ==>
              var p := ParseRecord(s, withKey).value;
              ParseSegment(s, withKey) == AfterRecs([p.record], ParseSegment(s[p.size..], withKey))
  {
  }

  // ---------------------------------------------------------------------
  // Temporary files: segments one after the other
  // ---------------------------------------------------------------------

  /** A temporary file: its segments one after the other. */
  function Layout(segs: seq<seq<Record>>, withKey: bool): seq<byte>
  {
    if segs == [] then [] else EncodeSegment(segs[0], withKey) + Layout(segs[1..], withKey)
  }

  /** `file` holds the segments `segs` and `offsets` says where each starts. */
  predicate Laid(file: seq<byte>, offsets: seq<nat>, segs: seq<seq<Record>>, withKey: bool)
  {
    && |offsets| == |segs| && file == Layout(segs, withKey)
    && forall i :: 0 <= i < |segs| ==> offsets[i] == |Layout(segs[..i], withKey)|
  }

  lemma {:induction false} LaidEmpty(withKey: bool)
    ensures Laid([], [], [], withKey)
  {
  }

  lemma {:induction false} LayoutAppend(a: seq<seq<Record>>, b: seq<seq<Record>>, withKey: bool)
    ensures Layout(a + b, withKey) == Layout(a, withKey) + Layout(b, withKey)
  {
    if a == [] {
      assert a + b == b;
    } else {
      assert (a + b)[1..] == a[1..] + b;
      LayoutAppend(a[1..], b, withKey);
    }
  }

  /** Writing one more segment at the end of the file. */
  lemma {:induction false} LaidSnoc(file: seq<byte>, offsets: seq<nat>, segs: seq<seq<Record>>, seg: seq<Record>, withKey: bool)
    requires Laid(file, offsets, segs, withKey)
    ensures Laid(file + EncodeSegment(seg, withKey), offsets + [|file|], segs + [seg], withKey)
  {
    var segs' := segs + [seg];
    LayoutAppend(segs, [seg], withKey);
    assert Layout([seg], withKey) == EncodeSegment(seg, withKey) + Layout([], withKey);
    assert segs'[..|segs|] == segs;
    forall i | 0 <= i < |segs|
      ensures segs'[..i] == segs[..i]
    {
    }
  }

  /** The bytes from the start of segment i on: that segment, then the rest. */
  lemma {:induction false} LaidFrom(file: seq<byte>, offsets: seq<nat>, segs: seq<seq<Record>>, i: int, withKey: bool)
    requires Laid(file, offsets, segs, withKey) && 0 <= i < |segs|
    ensures offsets[i] <= |file|
    ensures file[offsets[i]..] == EncodeSegment(segs[i], withKey) + Layout(segs[i + 1..], withKey)
  {
    assert segs == segs[..i] + segs[i..];
    LayoutAppend(segs[..i], segs[i..], withKey);
    assert segs[i..][1..] == segs[i + 1..];
  }
}
