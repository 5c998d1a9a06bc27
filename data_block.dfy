/** DataBlock, the record as the unpacking side (DataProcessor) reads it:
    the same wire format as DataTool.Chunk, read with DataProcessor's own
    readVarLong, and an order of its own: blocks without metadata first,
    and payload bytes compared as signed values. */
module DataBlock {
  import opened Base
  import opened VarLong
  import opened Order
  import opened RecordFormat

  // ---------------------------------------------------------------------
  // DataBlock.readFrom
  // ---------------------------------------------------------------------

  /** The offset loop of readFrom: varints up to and including the first 0. */
  method ReadOffsets(input: seq<byte>) returns (r: Result<IdList>)
    ensures r == ParseIds(input)
  {
    var offsets: seq<i64> := [];
    var pos := 0;
    assert input[pos..] == input;
    AfterIdsStart(ParseIds(input));
    while true
      invariant pos <= |input|
      invariant ParseIds(input) == AfterIds(offsets, pos, ParseIds(input[pos..]))
      decreases |input| - pos
    {
      var d := ProcessorReadVarLong(input[pos..]);
      ReadIdsStep(input, pos, offsets);
      if d.Err? {
        return Err(d.error);
      }
      if d.value.value == 0 {
        return Ok(IdList(offsets, pos + d.value.size));
      }
      offsets := offsets + [d.value.value];
      pos := pos + d.value.size;
    }
  }

  /** `(int) readVarLong`, `new byte[length]` and readFully. */
  method ReadData(s: seq<byte>) returns (r: Result<Bytes>)
    ensures r == ParsePayload(s)
  {
    var d := ProcessorReadVarLong(s);
    if d.Err? {
      return Err(d.error);
    }
    var length := ToI32(d.value.value);
    if length < 0 {
      return Err(NegativeArraySize);
    }
    var n := d.value.size;
    if |s| - n < length {
      return Err(Eof);
    }
    return Ok(Bytes(s[n..n + length], n + length));
  }

  /** DataBlock.readFrom on a stream whose remaining bytes are `input`:
      offsets up to the closing 0 (none: the end, Java closes the stream
      and returns null), four readInt calls when `readMetadata`, then the
      length-prefixed payload. */
  method ReadFrom(input: seq<byte>, readMetadata: bool) returns (r: Result<Parsed>)
    ensures r == ParseRecord(input, readMetadata)
  {
    var offsetList := ReadOffsets(input);
    if offsetList.Err? {
      return Err(offsetList.error);
    }
    var offsets, pos := offsetList.value.ids, offsetList.value.size;
    if offsets == [] {
      ParseRecordEnd(input, readMetadata, pos);
      return Ok(End(pos));
    }
    ParseRecordTail(input, readMetadata, offsets, pos);
    var rest := input[pos..];
    var meta: Option<seq<i32>> := None;
    var used := 0;
    if readMetadata {
      var m := ReadInts(rest, 4);
      if m.Err? {
        return Err(m.error);
      }
      meta := Some(m.value);
      used := 16;
    }
    var data := ReadData(rest[used..]);
    if data.Err? {
      return Err(data.error);
    }
    return Ok(Item(Record(offsets, meta, data.value.bytes), pos + used + data.value.size));
  }

  // ---------------------------------------------------------------------
  // DataBlock.compareTo
  // ---------------------------------------------------------------------

  /** The payload bytes as Java's signed bytes. */
  function Signeds(p: seq<byte>): (r: seq<int>)
    ensures |r| == |p|
    ensures forall i :: 0 <= i < |p| ==> r[i] == Signed(p[i])
  {
    if p == [] then [] else [Signed(p[0])] + Signeds(p[1..])
  }

  lemma {:induction false} SignedsInjective(p: seq<byte>, q: seq<byte>)
    requires Signeds(p) == Signeds(q)
    ensures p == q
  {
    forall i | 0 <= i < |p|
      ensures p[i] == q[i]
    {
      assert Signed(p[i]) == Signed(q[i]);
    }
  }

  /** The payload loop: Byte.compare, the difference of the first pair of
      signed bytes that differ, or 0. */
  function ByteCompare(p: seq<byte>, q: seq<byte>): (r: int)
    requires |p| == |q|
    ensures Sign(r) == Lex(Signeds(p), Signeds(q))
    ensures r == 0 <==> p == q
  {
    var sp, sq := Signeds(p), Signeds(q);
    var i := FirstDiff(sp, sq);
    if i == |p| then
      assert sp == sq;
      SignedsInjective(p, q);
      0
    else sp[i] - sq[i]
  }

  /** What compareTo needs of two blocks to return instead of throwing: a
      first offset on each side when neither has metadata, and metadata
      of the same length when both have it. */
  predicate Comparable(a: Record, b: Record)
  {
    && (a.key.None? && b.key.None? ==> |a.ids| >= 1 && |b.ids| >= 1)
    && (a.key.Some? && b.key.Some? ==> |a.key.value| == |b.key.value|)
  }

  /** DataBlock.compareTo: two blocks without metadata by first offset
      (Long.compare); a block without metadata before one with it; two with
      metadata by the metadata ints (Integer.compare), then payload length,
      then Byte.compare on the payload. */
  function Compare(a: Record, b: Record): (r: int)
    requires Comparable(a, b)
  {
    if a.key.None? || b.key.None? then
      if a.key.None? && b.key.None? then Sign(a.ids[0] as int - b.ids[0] as int)
      else if a.key.None? then -1
      else 1
    else if Lex(a.key.value, b.key.value) != 0 then Lex(a.key.value, b.key.value)
    else if |a.payload| != |b.payload| then Sign(|a.payload| - |b.payload|)
    else ByteCompare(a.payload, b.payload)
  }

  /** Equal under compareTo: the same first offset without metadata, the
      same metadata and payload with it, never one of each. */
  lemma {:induction false} CompareZero(a: Record, b: Record)
    requires Comparable(a, b)
    ensures a.key.None? && b.key.None? ==> (Compare(a, b) == 0 <==> a.ids[0] == b.ids[0])
    ensures a.key.Some? && b.key.Some? ==> (Compare(a, b) == 0 <==> a.key == b.key && a.payload == b.payload)
    ensures a.key.None? != b.key.None? ==> Compare(a, b) == (if a.key.None? then -1 else 1)
  {
  }

  lemma {:induction false} CompareAntisymmetric(a: Record, b: Record)
    requires Comparable(a, b)
    ensures Comparable(b, a)
    ensures Sign(Compare(a, b)) == -Sign(Compare(b, a))
  {
    if a.key.Some? && b.key.Some? {
      LexAntisymmetric(a.key.value, b.key.value);
      if |a.payload| == |b.payload| {
        LexAntisymmetric(Signeds(a.payload), Signeds(b.payload));
      }
    }
  }

  /** The payload part of transitivity, for payloads of one length. */
  lemma {:induction false} ByteCompareTransitive(p: seq<byte>, q: seq<byte>, s: seq<byte>)
    requires |p| == |q| == |s|
    requires ByteCompare(p, q) <= 0 && ByteCompare(q, s) <= 0
    ensures ByteCompare(p, s) <= 0
  {
    LexTransitive(Signeds(p), Signeds(q), Signeds(s));
  }

  /** compareTo is transitive over all blocks, with and without metadata. */
  lemma {:induction false} CompareTransitive(a: Record, b: Record, c: Record)
    requires Comparable(a, b) && Comparable(b, c) && Comparable(a, c)
    requires Compare(a, b) <= 0 && Compare(b, c) <= 0
    ensures Compare(a, c) <= 0
  {
    if a.key.Some? && b.key.Some? && c.key.Some? {
      var ka, kb, kc := a.key.value, b.key.value, c.key.value;
      LexTransitive(ka, kb, kc);
      if Lex(ka, kb) == 0 && Lex(kb, kc) == 0 {
        assert ka == kb == kc;
        if |a.payload| == |b.payload| == |c.payload| {
          ByteCompareTransitive(a.payload, b.payload, c.payload);
        }
      } else {
        LexStrict(ka, kb, kc);
      }
    }
  }

  /** DataBlock.compareTo with its two loops. */
  method CompareTo(a: Record, b: Record) returns (r: int)
    requires Comparable(a, b)
    ensures r == Compare(a, b)
  {
    if a.key.None? || b.key.None? {
      if a.key.None? && b.key.None? {
        var x, y := a.ids[0], b.ids[0];
        return if x < y then -1 else if x > y then 1 else 0;  // Long.compare
      }
      return if a.key.None? then -1 else 1;
    }
    var ma, mb := a.key.value, b.key.value;
    for i := 0 to |ma|
      invariant forall j :: 0 <= j < i ==> ma[j] == mb[j]
    {
      var comparison := if ma[i] < mb[i] then -1 else if ma[i] > mb[i] then 1 else 0;
      if comparison != 0 {
        FirstDiffAt(ma, mb, i);
        return comparison;
      }
    }
    FirstDiffAt(ma, mb, |ma|);
    var lengthComparison := Sign(|a.payload| - |b.payload|);
    if lengthComparison != 0 {
      return lengthComparison;
    }
    var pa, pb := a.payload, b.payload;
    for i := 0 to |pa|
      invariant forall j :: 0 <= j < i ==> pa[j] == pb[j]
    {
      var byteComparison := Signed(pa[i]) - Signed(pb[i]);  // Byte.compare
      if byteComparison != 0 {
        FirstDiffAt(Signeds(pa), Signeds(pb), i);
        return byteComparison;
      }
    }
    FirstDiffAt(Signeds(pa), Signeds(pb), |pa|);
    return 0;
  }
}
