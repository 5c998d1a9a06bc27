/** DataTool.Chunk: writing a chunk record, reading one back, and the
    order in which the sorter keeps chunks. A chunk is a RecordFormat.Record;
    it is written with or without its sort key. */
module Chunk {
  import opened Base
  import opened VarLong
  import opened Order
  import opened RecordFormat

  // ---------------------------------------------------------------------
  // Chunk.write
  // ---------------------------------------------------------------------

  lemma {:induction false} EncodeIdsSnoc(ids: seq<i64>, x: i64)
    ensures EncodeIds(ids + [x]) == EncodeIds(ids) + Encode(U64(x))
  {
    if ids != [] {
      assert (ids + [x])[1..] == ids[1..] + [x];
      EncodeIdsSnoc(ids[1..], x);
    } else {
      assert [x][1..] == [];
    }
  }

  lemma {:induction false} EncodeKeySnoc(key: seq<i32>, x: i32)
    ensures EncodeKey(key + [x]) == EncodeKey(key) + BigEndian32(x)
  {
    if key != [] {
      assert (key + [x])[1..] == key[1..] + [x];
      EncodeKeySnoc(key[1..], x);
    } else {
      assert [x][1..] == [];
    }
  }

  /** The id loop of Chunk.write, with its running count. */
  method WriteIds(ids: seq<i64>) returns (out: seq<byte>, len: i32)
    ensures out == EncodeIds(ids)
    ensures len == ToI32(|out|)
  {
    out := [];
    len := 0;
    for k := 0 to |ids|
      invariant out == EncodeIds(ids[..k])
      invariant len == ToI32(|out|)
    {
      var w, n := WriteVarLong(ids[k]);
      assert ids[..k + 1] == ids[..k] + [ids[k]];
      EncodeIdsSnoc(ids[..k], ids[k]);
      ToI32Add(|out|, n);
      out := out + w;
      len := ToI32(len + n);
    }
    assert ids[..|ids|] == ids;
  }

  /** The key loop of Chunk.write: writeInt per key int, 4 bytes each. */
  method WriteKey(key: seq<i32>) returns (out: seq<byte>, len: int)
    ensures out == EncodeKey(key)
    ensures len == |out| == 4 * |key|
  {
    out := [];
    len := 0;
    for i := 0 to |key|
      invariant out == EncodeKey(key[..i])
      invariant len == |out| == 4 * i
    {
      assert key[..i + 1] == key[..i] + [key[i]];
      EncodeKeySnoc(key[..i], key[i]);
      out := out + BigEndian32(key[i]);
      len := len + 4;
    }
    assert key[..|key|] == key;
  }

  /** Chunk.write: the bytes it sends to the stream, and the count it
      returns, summed in a Java int. Writing the key of a chunk that has
      none is a NullPointerException in Java, so callers never do it. */
  method Write(c: Record, writeKey: bool) returns (out: seq<byte>, len: i32)
    requires writeKey ==> c.key.Some?
    requires |c.payload| <= MAX_ARRAY
    ensures out == EncodeRecord(c, writeKey)
    ensures len == ToI32(|out|)
  {
    var idBytes, n := WriteIds(c.ids);
    var w0, n0 := WriteVarLong(0);
    assert w0 == Encode(0);
    var head := idBytes + w0;
    ToI32Add(|idBytes|, n0);
    len := ToI32(n + n0);
    assert len == ToI32(|head|);
    var keyBytes: seq<byte> := [];
    if writeKey {
      var nk;
      keyBytes, nk := WriteKey(c.key.value);
      ToI32Add(|head|, nk);
      len := ToI32(len + nk);
    }
    assert len == ToI32(|head| + |keyBytes|);
    var wl, nl := WriteVarLong(|c.payload|);
    assert wl == Encode(|c.payload|);
    ToI32Add(|head| + |keyBytes|, nl);
    len := ToI32(len + nl);
    assert len == ToI32(|head| + |keyBytes| + |wl|);
    ToI32Add(|head| + |keyBytes| + |wl|, |c.payload|);
    len := ToI32(len + |c.payload|);
    var tail := keyBytes + wl + c.payload;
    assert tail == EncodeTail(c, writeKey);
    out := head + tail;
    assert |out| == |head| + |keyBytes| + |wl| + |c.payload|;
  }

  // ---------------------------------------------------------------------
  // Chunk.read
  // ---------------------------------------------------------------------

  /** The `(int) readVarLong` length and readFully of Chunk.read. */
  method ReadPayload(s: seq<byte>) returns (r: Result<Bytes>)
    ensures r == ParsePayload(s)
  {
    var d := ReadVarLong(s);
    if d.Err? {
      return Err(d.error);
    }
    var len := ToI32(d.value.value);
    if len < 0 {
      return Err(NegativeArraySize);  // new byte[len]
    }
    var n := d.value.size;
    if |s| - n < len {
      return Err(Eof);                // readFully
    }
    return Ok(Bytes(s[n..n + len], n + len));
  }

  /** What Chunk.read reads after a non-empty id list. */
  method ReadTail(s: seq<byte>, readKey: bool) returns (r: Result<Tail>)
    ensures r == ParseTail(s, readKey)
  {
    if readKey {
      var k := ReadInts(s, 4);
      if k.Err? {
        return Err(k.error);
      }
      var p := ReadPayload(s[16..]);
      if p.Err? {
        return Err(p.error);
      }
      return Ok(Tail(Some(k.value), p.value.bytes, 16 + p.value.size));
    }
    var p := ReadPayload(s);
    if p.Err? {
      return Err(p.error);
    }
    return Ok(Tail(None, p.value.bytes, p.value.size));
  }

  /** The id loop of Chunk.read: varints up to and including the first 0. */
  method ReadIds(input: seq<byte>) returns (r: Result<IdList>)
    ensures r == ParseIds(input)
  {
    var ids: seq<i64> := [];
    var pos := 0;
    assert input[pos..] == input;
    AfterIdsStart(ParseIds(input));
    while true
      invariant pos <= |input|
      invariant ParseIds(input) == AfterIds(ids, pos, ParseIds(input[pos..]))
      decreases |input| - pos
    {
      var d := ReadVarLong(input[pos..]);
      ReadIdsStep(input, pos, ids);
      if d.Err? {
        return Err(d.error);
      }
      if d.value.value == 0 {
        return Ok(IdList(ids, pos + d.value.size));
      }
      ids := ids + [d.value.value];
      pos := pos + d.value.size;
    }
  }

  /** Chunk.read on a stream whose remaining bytes are `input`: ids up to
      the closing 0, then (when `readKey`) four readInt calls, then the
      `(int)` payload length and readFully. The 0 sentinel gives End (Java
      closes the stream and returns null); an id list cut short, a short
      key, a negative length and a short payload give the errors Java
      throws. */
  method Read(input: seq<byte>, readKey: bool) returns (r: Result<Parsed>)
    ensures r == ParseRecord(input, readKey)
  {
    var idList := ReadIds(input);
    if idList.Err? {
      return Err(idList.error);
    }
    var ids, pos := idList.value.ids, idList.value.size;
    if ids == [] {
      ParseRecordEnd(input, readKey, pos);
      return Ok(End(pos));
    }
    var t := ReadTail(input[pos..], readKey);
    ParseRecordTail(input, readKey, ids, pos);
    if t.Err? {
      return Err(t.error);
    }
    return Ok(Item(Record(ids, t.value.key, t.value.payload), pos + t.value.size));
  }

  // ---------------------------------------------------------------------
  // Chunk.compareTo
  // ---------------------------------------------------------------------

  /** What compareTo needs of its two chunks to return instead of throwing:
      an id to compare, and a key on the other side, of the same length,
      whenever this side has one. */
  predicate Comparable(a: Record, b: Record)
  {
    |a.ids| >= 1 && |b.ids| >= 1 &&
    (a.key.Some? ==> b.key.Some? && |a.key.value| == |b.key.value|)
  }

  /** Chunk.compareTo: without a sort key by first id; with one by the key
      ints (signed), then payload length, then payload bytes (unsigned). */
  function Compare(a: Record, b: Record): (r: int)
    requires Comparable(a, b)
    ensures -1 <= r <= 1
  {
    if a.key.None? then Sign(a.ids[0] as int - b.ids[0] as int)
    else if Lex(a.key.value, b.key.value) != 0 then Lex(a.key.value, b.key.value)
    else if |a.payload| != |b.payload| then Sign(|a.payload| - |b.payload|)
    else Lex(a.payload, b.payload)
  }

  /** Keyed chunks compare equal exactly when key and payload are the same;
      key-less chunks exactly when their first ids are. */
  lemma {:induction false} CompareZero(a: Record, b: Record)
    requires Comparable(a, b)
    ensures a.key.Some? ==> (Compare(a, b) == 0 <==> a.key == b.key && a.payload == b.payload)
    ensures a.key.None? ==> (Compare(a, b) == 0 <==> a.ids[0] == b.ids[0])
  {
  }

  lemma {:induction false} CompareAntisymmetric(a: Record, b: Record)
    requires Comparable(a, b) && Comparable(b, a)
    ensures Compare(a, b) == -Compare(b, a)
  {
    if a.key.Some? {
      LexAntisymmetric(a.key.value, b.key.value);
      if |a.payload| == |b.payload| {
        LexAntisymmetric(a.payload, b.payload);
      }
    }
  }

  /** Transitivity, among chunks that all carry a key or all carry none
      (a sort only ever sees one kind). */
  lemma {:induction false} CompareTransitive(a: Record, b: Record, c: Record)
    requires Comparable(a, b) && Comparable(b, c) && Comparable(a, c)
    requires a.key.Some? == b.key.Some? == c.key.Some?
    requires Compare(a, b) <= 0 && Compare(b, c) <= 0
    ensures Compare(a, c) <= 0
  {
    if a.key.Some? {
      var ka, kb, kc := a.key.value, b.key.value, c.key.value;
      LexTransitive(ka, kb, kc);
      if Lex(ka, kb) == 0 && Lex(kb, kc) == 0 {
        assert ka == kb == kc;
        if |a.payload| == |b.payload| == |c.payload| {
          LexTransitive(a.payload, b.payload, c.payload);
        }
      } else {
        LexStrict(ka, kb, kc);
      }
    }
  }

  /** Chunk.compareTo with its loops: the key ints, the lengths, the bytes. */
  method CompareTo(a: Record, b: Record) returns (r: int)
    requires Comparable(a, b)
    ensures r == Compare(a, b)
  {
    if a.key.None? {
      var x, y := a.ids[0], b.ids[0];
      if x < y {
        return -1;
      } else if x > y {
        return 1;
      }
      return 0;
    }
    var ka, kb := a.key.value, b.key.value;
    for i := 0 to |ka|
      invariant forall j :: 0 <= j < i ==> ka[j] == kb[j]
    {
      if ka[i] < kb[i] {
        FirstDiffAt(ka, kb, i);
        return -1;
      } else if ka[i] > kb[i] {
        FirstDiffAt(ka, kb, i);
        return 1;
      }
    }
    FirstDiffAt(ka, kb, |ka|);
    if |a.payload| < |b.payload| {
      return -1;
    } else if |a.payload| > |b.payload| {
      return 1;
    }
    var pa, pb := a.payload, b.payload;
    for i := 0 to |pa|
      invariant forall j :: 0 <= j < i ==> pa[j] == pb[j]
    {
      var x, y := pa[i], pb[i];  // value[i] & 255
      if x < y {
        FirstDiffAt(pa, pb, i);
        return -1;
      } else if x > y {
        FirstDiffAt(pa, pb, i);
        return 1;
      }
    }
    FirstDiffAt(pa, pb, |pa|);
    return 0;
  }
}
