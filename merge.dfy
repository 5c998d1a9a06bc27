/** The k-way merge of sorted record streams, written twice in the
    archiver: DataTool.ChunkStream with DataTool.merge (chunks, ordered by
    Chunk.compareTo) and IndexEntry with DataIterator (blocks, ordered by
    DataBlock.compareTo). A cursor holds the current record of one stream;
    the live cursors sit in a TreeSet ordered by their records and then by
    stream id; the iterator takes the least cursor out, hands its record
    over, advances it, and puts it back while it has one. */
module Merge {
  import opened Base
  import opened Order
  import opened RecordFormat
  import Chunk
  import DataBlock

  /** Which side of the archiver the streams belong to: chunks are read by
      Chunk.read and ordered by Chunk.compareTo, blocks by
      DataBlock.readFrom and DataBlock.compareTo. */
  datatype Kind = Chunks | Blocks

  /** A stream index: openSegments and buildIndex number streams 0, 1, ... */
  type StreamId = x: int | 0 <= x < 0x8000_0000

  /** The record order of the side. Records read from one kind of stream
      are all keyed or all key-less, so both comparators are defined. */
  function Cmp(k: Kind, w: bool, a: Record, b: Record): (r: int)
    requires Family(w, a) && Family(w, b)
  {
    match k
    case Chunks => Chunk.Compare(a, b)
    case Blocks => DataBlock.Compare(a, b)
  }

  lemma {:induction false} CmpAntisymmetric(k: Kind, w: bool, a: Record, b: Record)
    requires Family(w, a) && Family(w, b)
    ensures Sign(Cmp(k, w, a, b)) == -Sign(Cmp(k, w, b, a))
  {
    if k == Chunks {
      Chunk.CompareAntisymmetric(a, b);
    } else {
      DataBlock.CompareAntisymmetric(a, b);
    }
  }

  lemma {:induction false} CmpTransitive(k: Kind, w: bool, a: Record, b: Record, c: Record)
    requires Family(w, a) && Family(w, b) && Family(w, c)
    requires Cmp(k, w, a, b) <= 0 && Cmp(k, w, b, c) <= 0
    ensures Cmp(k, w, a, c) <= 0
  {
    if k == Chunks {
      Chunk.CompareTransitive(a, b, c);
    } else {
      DataBlock.CompareTransitive(a, b, c);
    }
  }

  /** ChunkStream.compareTo and IndexEntry.compareTo: the records' order,
      ties broken by `Integer.signum(id - o.id)` (two non-negative ints,
      so the difference does not wrap). */
  function CursorCompare(k: Kind, w: bool, a: Record, i: StreamId, b: Record, j: StreamId): (r: int)
    requires Family(w, a) && Family(w, b)
  {
    var c := Cmp(k, w, a, b);
    if c != 0 then c else Sign(i - j)
  }

  /** Cursors of distinct streams never compare equal, so the TreeSet
      keeps all of them; the order is antisymmetric. */
  lemma {:induction false} CursorCompareStrict(k: Kind, w: bool, a: Record, i: StreamId, b: Record, j: StreamId)
    requires Family(w, a) && Family(w, b)
    ensures CursorCompare(k, w, a, i, b, j) == 0 <==> i == j && Cmp(k, w, a, b) == 0
    ensures Sign(CursorCompare(k, w, a, i, b, j)) == -Sign(CursorCompare(k, w, b, j, a, i))
  {
    CmpAntisymmetric(k, w, a, b);
  }

  lemma {:induction false} CursorCompareTransitive(k: Kind, w: bool, a: Record, i: StreamId, b: Record, j: StreamId, c: Record, l: StreamId)
    requires Family(w, a) && Family(w, b) && Family(w, c)
    requires CursorCompare(k, w, a, i, b, j) <= 0 && CursorCompare(k, w, b, j, c, l) <= 0
    ensures CursorCompare(k, w, a, i, c, l) <= 0
  {
    CmpTransitive(k, w, a, b, c);
    CmpAntisymmetric(k, w, a, b);
    CmpAntisymmetric(k, w, b, c);
    CmpAntisymmetric(k, w, a, c);
    if Cmp(k, w, a, c) == 0 {
      CmpTransitive(k, w, c, a, b);
    }
  }

  // ---------------------------------------------------------------------
  // The streams as values
  // ---------------------------------------------------------------------

  predicate Uniform(w: bool, recs: seq<Record>)
  {
    forall n :: 0 <= n < |recs| ==> Family(w, recs[n])
  }

  predicate AllUniform(w: bool, rs: seq<seq<Record>>)
  {
    forall j :: 0 <= j < |rs| ==> Uniform(w, rs[j])
  }

  /** A stream in the record order: every record no greater than those after it. */
  predicate Sorted(k: Kind, w: bool, recs: seq<Record>)
    requires Uniform(w, recs)
  {
    forall m, n :: 0 <= m < n < |recs| ==> Cmp(k, w, recs[m], recs[n]) <= 0
  }

  predicate AllSorted(k: Kind, w: bool, rs: seq<seq<Record>>)
    requires AllUniform(w, rs)
  {
    forall j :: 0 <= j < |rs| ==> Sorted(k, w, rs[j])
  }

  /** `x` is no greater than any record still to come. */
  predicate NotAfter(k: Kind, w: bool, x: Record, rs: seq<seq<Record>>)
    requires Family(w, x) && AllUniform(w, rs)
  {
    forall j, n :: 0 <= j < |rs| && 0 <= n < |rs[j]| ==> Cmp(k, w, x, rs[j][n]) <= 0
  }

  /** The least head: the record of stream `m` is at the front of a stream
      and compares no greater than any other front record. */
  predicate IsFirst(k: Kind, w: bool, rs: seq<seq<Record>>, m: int)
    requires AllUniform(w, rs) && |rs| <= 0x8000_0000
  {
    && 0 <= m < |rs| && rs[m] != []
    && forall j :: 0 <= j < |rs| && rs[j] != [] ==> CursorCompare(k, w, rs[m][0], m, rs[j][0], j) <= 0
  }

  /** Every record still to come, with multiplicity. */
  function Total(rs: seq<seq<Record>>): (r: multiset<Record>)
  {
    if rs == [] then multiset{} else multiset(rs[0]) + Total(rs[1..])
  }

  lemma {:induction false} TotalAppend(a: seq<seq<Record>>, b: seq<seq<Record>>)
    ensures Total(a + b) == Total(a) + Total(b)
  {
    if a == [] {
      assert a + b == b;
    } else {
      assert (a + b)[1..] == a[1..] + b;
      TotalAppend(a[1..], b);
    }
  }

  /** The number of records still to come. */
  function Size(rs: seq<seq<Record>>): (r: nat)
    ensures r == |Total(rs)|
  {
    if rs == [] then 0 else |rs[0]| + Size(rs[1..])
  }

  /** Every id carried by a list of records, with multiplicity. */
  function Ids(recs: seq<Record>): (r: multiset<i64>)
  {
    if recs == [] then multiset{} else multiset(recs[0].ids) + Ids(recs[1..])
  }

  function AllIds(rs: seq<seq<Record>>): (r: multiset<i64>)
  {
    if rs == [] then multiset{} else Ids(rs[0]) + AllIds(rs[1..])
  }

  lemma {:induction false} IdsAppend(a: seq<Record>, b: seq<Record>)
    ensures Ids(a + b) == Ids(a) + Ids(b)
  {
    if a == [] {
      assert a + b == b;
    } else {
      assert (a + b)[1..] == a[1..] + b;
      IdsAppend(a[1..], b);
    }
  }

  /** There is always a least head while some stream has a record. */
  lemma {:induction false} FirstExists(k: Kind, w: bool, rs: seq<seq<Record>>)
    requires AllUniform(w, rs) && |rs| <= 0x8000_0000
    requires exists j :: 0 <= j < |rs| && rs[j] != []
    ensures exists m :: IsFirst(k, w, rs, m)
    decreases |rs|
  {
    var last := |rs| - 1;
    var front := rs[..last];
    assert AllUniform(w, front) by {
      forall j | 0 <= j < |front|
        ensures Uniform(w, front[j])
      {
        assert front[j] == rs[j];
      }
    }
    if exists j :: 0 <= j < last && rs[j] != [] {
      var j :| 0 <= j < last && rs[j] != [];
      assert front[j] != [];
      FirstExists(k, w, front);
      var m :| IsFirst(k, w, front, m);
      if rs[last] == [] || CursorCompare(k, w, rs[m][0], m, rs[last][0], last) <= 0 {
        FirstKept(k, w, rs, m);
        assert IsFirst(k, w, rs, m);
      } else {
        FirstIsLast(k, w, rs, m);
        assert IsFirst(k, w, rs, last);
      }
    } else {
      FirstAlone(k, w, rs);
      assert IsFirst(k, w, rs, last);
    }
  }

  /** The least head of all streams but the last stays least when the
      last has none or a greater one. */
  lemma {:induction false} FirstKept(k: Kind, w: bool, rs: seq<seq<Record>>, m: int)
    requires AllUniform(w, rs) && 1 <= |rs| <= 0x8000_0000 && AllUniform(w, rs[..|rs| - 1])
    requires IsFirst(k, w, rs[..|rs| - 1], m)
    requires rs[|rs| - 1] != [] ==> CursorCompare(k, w, rs[m][0], m, rs[|rs| - 1][0], |rs| - 1) <= 0
    ensures IsFirst(k, w, rs, m)
  {
    var front := rs[..|rs| - 1];
    forall j | 0 <= j < |rs| && rs[j] != []
      ensures CursorCompare(k, w, rs[m][0], m, rs[j][0], j) <= 0
    {
      if j < |rs| - 1 {
        assert front[j] == rs[j];
      }
    }
  }

  /** The last stream's head is least when it beats the least of the others. */
  lemma {:induction false} FirstIsLast(k: Kind, w: bool, rs: seq<seq<Record>>, m: int)
    requires AllUniform(w, rs) && 1 <= |rs| <= 0x8000_0000 && AllUniform(w, rs[..|rs| - 1])
    requires IsFirst(k, w, rs[..|rs| - 1], m)
    requires rs[|rs| - 1] != [] && CursorCompare(k, w, rs[m][0], m, rs[|rs| - 1][0], |rs| - 1) > 0
    ensures IsFirst(k, w, rs, |rs| - 1)
  {
    var last := |rs| - 1;
    var front := rs[..last];
    CursorCompareStrict(k, w, rs[m][0], m, rs[last][0], last);
    forall j | 0 <= j < |rs| && rs[j] != []
      ensures CursorCompare(k, w, rs[last][0], last, rs[j][0], j) <= 0
    {
      if j < last {
        assert front[j] == rs[j];
        CursorCompareTransitive(k, w, rs[last][0], last, rs[m][0], m, rs[j][0], j);
      } else {
        CursorCompareStrict(k, w, rs[last][0], last, rs[last][0], last);
      }
    }
  }

  /** When only the last stream has a record, its head is least. */
  lemma {:induction false} FirstAlone(k: Kind, w: bool, rs: seq<seq<Record>>)
    requires AllUniform(w, rs) && 1 <= |rs| <= 0x8000_0000 && rs[|rs| - 1] != []
    requires forall j :: 0 <= j < |rs| - 1 ==> rs[j] == []
    ensures IsFirst(k, w, rs, |rs| - 1)
  {
    var last := |rs| - 1;
    CursorCompareStrict(k, w, rs[last][0], last, rs[last][0], last);
  }

  /** Taking the front record of stream `i` out leaves the records to
      come, and the count drops by one. */
  lemma {:induction false} TakeFront(rs: seq<seq<Record>>, i: nat)
    requires i < |rs| && rs[i] != []
    ensures Total(rs) == Total(rs[i := rs[i][1..]]) + multiset{rs[i][0]}
    ensures Size(rs[i := rs[i][1..]]) == Size(rs) - 1
    decreases |rs|
  {
    var rs' := rs[i := rs[i][1..]];
    if i == 0 {
      assert rs[0] == [rs[0][0]] + rs[0][1..];
      assert rs'[1..] == rs[1..];
    } else {
      TakeFront(rs[1..], i - 1);
      assert rs'[1..] == rs[1..][i - 1 := rs[i][1..]];
    }
  }

  /** ... and the ids they carry lose those of that record. */
  lemma {:induction false} TakeFrontIds(rs: seq<seq<Record>>, i: nat)
    requires i < |rs| && rs[i] != []
    ensures AllIds(rs) == AllIds(rs[i := rs[i][1..]]) + multiset(rs[i][0].ids)
    decreases |rs|
  {
    var rs' := rs[i := rs[i][1..]];
    if i == 0 {
      assert rs[0] == [rs[0][0]] + rs[0][1..];
      assert rs'[1..] == rs[1..];
    } else {
      TakeFrontIds(rs[1..], i - 1);
      assert rs'[1..] == rs[1..][i - 1 := rs[i][1..]];
    }
  }

  /** The least head is no greater than anything to come when every
      stream is sorted; taking it out keeps every stream sorted. */
  lemma {:induction false} FirstIsLeast(k: Kind, w: bool, rs: seq<seq<Record>>, i: int)
    requires AllUniform(w, rs) && |rs| <= 0x8000_0000 && AllSorted(k, w, rs)
    requires IsFirst(k, w, rs, i)
    ensures AllUniform(w, rs[i := rs[i][1..]])
    ensures NotAfter(k, w, rs[i][0], rs)
    ensures NotAfter(k, w, rs[i][0], rs[i := rs[i][1..]])
    ensures AllSorted(k, w, rs[i := rs[i][1..]])
  {
    var x := rs[i][0];
    forall j, n | 0 <= j < |rs| && 0 <= n < |rs[j]|
      ensures Cmp(k, w, x, rs[j][n]) <= 0
    {
      var h := rs[j][0];
      assert CursorCompare(k, w, x, i, h, j) <= 0;
      assert Cmp(k, w, x, h) <= 0;
      if n > 0 {
        assert Cmp(k, w, h, rs[j][n]) <= 0;
        CmpTransitive(k, w, x, h, rs[j][n]);
      }
    }
    var rs' := rs[i := rs[i][1..]];
    forall j | 0 <= j < |rs'|
      ensures Uniform(w, rs'[j]) && Sorted(k, w, rs'[j])
    {
      if j == i {
        forall m, n | 0 <= m < n < |rs'[j]|
          ensures Cmp(k, w, rs'[j][m], rs'[j][n]) <= 0
        {
          assert rs'[j][m] == rs[i][m + 1] && rs'[j][n] == rs[i][n + 1];
        }
      }
    }
    forall j, n | 0 <= j < |rs'| && 0 <= n < |rs'[j]|
      ensures Cmp(k, w, x, rs'[j][n]) <= 0
    {
      if j == i {
        assert rs'[j][n] == rs[i][n + 1];
      }
    }
  }

  // ---------------------------------------------------------------------
  // ChunkStream / IndexEntry
  // ---------------------------------------------------------------------

  /** A stream positioned inside a segment: its id, its current record
      (`current` / `dataBlock`, null in Java once the segment's sentinel is
      read) and the bytes of the stream not read yet. */
  class Cursor {
    const id: StreamId
    const kind: Kind
    const withKey: bool
    var block: Option<Record>
    var input: seq<byte>

    /** `new ChunkStream(i)` / `new IndexEntry(i)` over a stream skipped to a segment start. */
    constructor (id: StreamId, kind: Kind, withKey: bool, input: seq<byte>)
      ensures this.id == id && this.kind == kind && this.withKey == withKey
      ensures block == None && this.input == input
    {
      this.id := id;
      this.kind := kind;
      this.withKey := withKey;
      this.block := None;
      this.input := input;
    }

    /** The current record was read from a well-formed segment whose rest
        is still to be read. */
    predicate Valid()
      reads this
    {
      block.Some? ==> ParseSegment(input, withKey).Ok? && Family(withKey, block.value)
    }

    /** The records this cursor has still to give: its current one and
        the rest of its segment. */
    ghost function Pending(): (r: seq<Record>)
      reads this
      requires Valid()
      ensures Uniform(withKey, r)
    {
      if block.None? then [] else [block.value] + ParseSegment(input, withKey).value
    }

    /** ChunkStream.readNext (`current = null; current = Chunk.read(...)`)
        and IndexEntry.loadData (`dataBlock = readDataBlock(...)`): the next
        record of the stream and its payload length, or null and 0 on the
        segment's sentinel. A read that fails leaves ChunkStream's record
        null and IndexEntry's as it was. */
    method LoadData() returns (r: Result<int>)
      modifies this
      ensures r.Err? <==> ParseRecord(old(input), withKey).Err?
      ensures r.Err? ==>
                r.error == ParseRecord(old(input), withKey).error && input == old(input) &&
                block == (if kind == Chunks then None else old(block))
      ensures r.Ok? ==>
                var p := ParseRecord(old(input), withKey).value;
                input == old(input)[p.size..] &&
                (p.End? ==> block == None && r.value == 0) &&
                (p.Item? ==> block == Some(p.record) && r.value == |p.record.payload|)
      ensures old(ParseSegment(input, withKey)).Ok? ==>
                r.Ok? && Valid() && Pending() == old(ParseSegment(input, withKey)).value
    {
      var p: Result<Parsed>;
      if kind == Chunks {
        block := None;
        p := Chunk.Read(input, withKey);
      } else {
        p := DataBlock.ReadFrom(input, withKey);
      }
      SegmentStep(input, withKey);
      if p.Err? {
        return Err(p.error);
      }
      input := input[p.value.size..];
      if p.value.End? {
        block := None;
        return Ok(0);
      }
      block := Some(p.value.record);
      return Ok(|p.value.record.payload|);
    }
  }

  /** ParseSegment unfolded once. */
  lemma {:induction false} SegmentStep(s: seq<byte>, w: bool)
    ensures ParseSegment(s, w).Ok? ==> ParseRecord(s, w).Ok?
    ensures ParseSegment(s, w).Ok? && ParseRecord(s, w).value.End? ==> ParseSegment(s, w).value == []
    ensures ParseSegment(s, w).Ok? && ParseRecord(s, w).value.Item? ==>
              var p := ParseRecord(s, w).value;
              ParseSegment(s[p.size..], w).Ok? &&
              ParseSegment(s, w).value == [p.record] + ParseSegment(s[p.size..], w).value
  {
  }

  // ---------------------------------------------------------------------
  // DataTool.merge's iterator / DataIterator
  // ---------------------------------------------------------------------

  /** The pending records of each stream, by stream id. */
  ghost function Contents(cs: seq<Cursor>): (r: seq<seq<Record>>)
    reads cs
    requires forall j :: 0 <= j < |cs| ==> cs[j].Valid()
    ensures |r| == |cs|
    ensures forall j :: 0 <= j < |cs| ==> r[j] == cs[j].Pending()
  {
    if cs == [] then [] else [cs[0].Pending()] + Contents(cs[1..])
  }

  /** The iterator over a TreeSet of cursors (`segmentIn` / `entries`).
      `streams` names every cursor opened, stream i at index i; the set
      holds exactly those that still have a record. */
  class MergeIterator {
    const kind: Kind
    const withKey: bool
    var entries: set<Cursor>
    ghost const streams: seq<Cursor>
    /** The records still to come, stream by stream. */
    ghost var remaining: seq<seq<Record>>

    /** Every stream is a well-formed cursor of this side, numbered by its place. */
    ghost predicate Streams()
      reads streams
    {
      && |streams| <= 0x8000_0000
      && forall j :: 0 <= j < |streams| ==>
           streams[j].id == j && streams[j].kind == kind && streams[j].withKey == withKey && streams[j].Valid()
    }

    ghost predicate Valid()
      reads this, streams
    {
      && Streams() && Live()
      && |remaining| == |streams|
      && (forall j :: 0 <= j < |streams| ==> remaining[j] == streams[j].Pending())
    }

    /** The set holds exactly the cursors that have a record. */
    ghost predicate Live()
      reads this, streams
    {
      && (forall c :: c in entries ==> c.id < |streams| && streams[c.id] == c && c.block.Some?)
      && (forall j :: 0 <= j < |streams| && streams[j].block.Some? ==> streams[j] in entries)
    }

    constructor (kind: Kind, withKey: bool, entries: set<Cursor>, ghost streams: seq<Cursor>)
      requires |streams| <= 0x8000_0000
      requires forall j :: 0 <= j < |streams| ==>
                 streams[j].id == j && streams[j].kind == kind && streams[j].withKey == withKey && streams[j].Valid()
      requires forall c :: c in entries ==> c.id < |streams| && streams[c.id] == c && c.block.Some?
      requires forall j :: 0 <= j < |streams| && streams[j].block.Some? ==> streams[j] in entries
      ensures Valid() && remaining == Contents(streams)
      ensures this.kind == kind && this.withKey == withKey && this.entries == entries && this.streams == streams
    {
      this.kind := kind;
      this.withKey := withKey;
      this.entries := entries;
      this.streams := streams;
      this.remaining := Contents(streams);
    }

    /** hasNext: the set is not empty, that is, some record is still to come. */
    method HasNext() returns (b: bool)
      requires Valid()
      ensures b <==> entries != {}
      ensures b <==> Size(remaining) > 0
    {
      b := entries != {};
      SizeZero(remaining);
      if b {
        var c :| c in entries;
        assert remaining[c.id] != [];
      } else {
        forall j | 0 <= j < |streams|
          ensures remaining[j] == []
        {
          assert streams[j] !in entries;
        }
      }
    }

    /** A stream with a record to come has its cursor in the set, holding that record. */
    lemma InEntries(j: int)
      requires Valid() && 0 <= j < |streams| && remaining[j] != []
      ensures streams[j] in entries && streams[j].block == Some(remaining[j][0])
    {
    }

    /** A cursor in the set is the one of its own stream, and holds that stream's next record. */
    lemma EntryAt(c: Cursor)
      requires Valid() && c in entries
      ensures c.id < |streams| && streams[c.id] == c
      ensures remaining[c.id] != [] && c.block == Some(remaining[c.id][0])
    {
    }

    /** `e` compares no greater than any cursor in the set. */
    ghost predicate Least(e: Cursor)
      reads this, entries, e
    {
      && e.block.Some? && Family(withKey, e.block.value)
      && forall o :: o in entries ==>
           o.block.Some? && Family(withKey, o.block.value) &&
           CursorCompare(kind, withKey, e.block.value, e.id, o.block.value, o.id) <= 0
    }

    /** A non-empty set has a least cursor: the one of the least head. */
    lemma LeastExists()
      requires Valid() && entries != {}
      ensures exists e :: e in entries && Least(e)
    {
      var c :| c in entries;
      EntryAt(c);
      FirstExists(kind, withKey, remaining);
      var m :| IsFirst(kind, withKey, remaining, m);
      InEntries(m);
      forall o | o in entries
        ensures o.block.Some? && Family(withKey, o.block.value)
        ensures CursorCompare(kind, withKey, streams[m].block.value, m, o.block.value, o.id) <= 0
      {
        EntryAt(o);
      }
      assert Least(streams[m]);
    }

    /** The least cursor holds the least head. */
    lemma LeastIsFirst(e: Cursor)
      requires Valid() && e in entries && Least(e)
      ensures IsFirst(kind, withKey, remaining, e.id)
    {
      EntryAt(e);
      var rs := remaining;
      forall j | 0 <= j < |rs| && rs[j] != []
        ensures CursorCompare(kind, withKey, rs[e.id][0], e.id, rs[j][0], j) <= 0
      {
        InEntries(j);
      }
    }

    /** TreeSet.first(): the cursor of the least head. */
    method FirstEntry() returns (e: Cursor, ghost i: StreamId)
      requires Valid() && entries != {}
      ensures i < |streams| && e == streams[i] && e in entries
      ensures IsFirst(kind, withKey, remaining, i)
    {
      LeastExists();
      e :| && e in entries && e.block.Some? && Family(withKey, e.block.value)
           && forall o :: o in entries ==>
                o.block.Some? && Family(withKey, o.block.value) &&
                CursorCompare(kind, withKey, e.block.value, e.id, o.block.value, o.id) <= 0;
      assert Least(e);
      LeastIsFirst(e);
      EntryAt(e);
      i := e.id;
    }

    /** readNext / loadData on the cursor of stream i: it gives up its
        front record, and no other cursor changes. */
    method Advance(e: Cursor, ghost i: StreamId)
      requires Streams() && i < |streams| && streams[i] == e && e.block.Some?
      modifies e
      ensures Streams()
      ensures forall j :: 0 <= j < |streams| && j != i ==> unchanged(streams[j])
      ensures e.Pending() == old(e.Pending())[1..]
    {
      var _ := e.LoadData();
      forall j | 0 <= j < |streams| && j != i
        ensures unchanged(streams[j])
      {
        assert streams[j].id == j;
      }
    }

    /** next / nextBlock: take the least cursor out of the set, hand its
        record over, advance it, and put it back if it has another. */
    method Next() returns (block: Record, ghost i: StreamId)
      requires Valid() && entries != {}
      modifies this, streams
      ensures Valid()
      ensures IsFirst(kind, withKey, old(remaining), i)
      ensures block == old(remaining)[i][0]
      ensures remaining == old(remaining)[i := old(remaining)[i][1..]]
    {
      var e;
      e, i := FirstEntry();
      var others := entries - {e};       // entries.remove(e)
      block := e.block.value;
      Advance(e, i);
      ghost var rest := remaining[i := remaining[i][1..]];
      forall j | 0 <= j < |streams|
        ensures rest[j] == streams[j].Pending()
      {
        if j != i {
          assert old(streams[j].Pending()) == streams[j].Pending();
        }
      }
      forall c | c in others
        ensures c.id < |streams| && streams[c.id] == c && c.id != i && c.block.Some?
      {
        assert c in old(entries);
      }
      forall j | 0 <= j < |streams| && j != i && streams[j].block.Some?
        ensures streams[j] in others
      {
        assert streams[j] in old(entries);
      }
      Reinsert(e, i, others, rest);
    }

    /** `if (s.current != null) segmentIn.add(s)`: the set is the other
        live cursors, and this one again while it has a record. */
    method Reinsert(e: Cursor, ghost i: StreamId, others: set<Cursor>, ghost rest: seq<seq<Record>>)
      requires Streams() && i < |streams| && streams[i] == e
      requires forall c :: c in others ==> c.id < |streams| && streams[c.id] == c && c.id != i && c.block.Some?
      requires forall j :: 0 <= j < |streams| && j != i && streams[j].block.Some? ==> streams[j] in others
      requires |rest| == |streams| && forall j :: 0 <= j < |streams| ==> rest[j] == streams[j].Pending()
      modifies this
      ensures Valid() && remaining == rest
      ensures entries == if e.block.Some? then others + {e} else others
    {
      entries := if e.block.Some? then others + {e} else others;
      remaining := rest;
    }

    /** Consuming the iterator to the end (`while (it.hasNext()) it.next()`):
        every record of every stream comes out once, and in the record
        order when every stream is in it. */
    method Drain() returns (out: seq<Record>)
      requires Valid()
      modifies this, streams
      ensures Valid() && entries == {} && Size(remaining) == 0
      ensures Uniform(withKey, out) && multiset(out) == old(Total(remaining))
      ensures old(AllSorted(kind, withKey, remaining)) ==> Sorted(kind, withKey, out)
    {
      ghost var sorted := AllSorted(kind, withKey, remaining);
      out := [];
      DrainStart(kind, withKey, sorted, remaining);
      while true
        invariant Valid()
        invariant Drained(kind, withKey, sorted, old(Total(remaining)), out, remaining)
        decreases Size(remaining)
      {
        var more := HasNext();
        if !more {
          break;
        }
        ghost var before := remaining;
        var block, i := Next();
        DrainStep(kind, withKey, sorted, old(Total(remaining)), out, before, i);
        out := out + [block];
      }
    }
  }

  /** What a drain has done so far: `out` and the records still to come
      together are what there was; when the streams were sorted, `out` is
      sorted, and no record of it comes after one still to come. */
  ghost predicate Drained(k: Kind, w: bool, sorted: bool, total: multiset<Record>, out: seq<Record>, rs: seq<seq<Record>>)
  {
    && Uniform(w, out) && AllUniform(w, rs) && multiset(out) + Total(rs) == total
    && (sorted ==>
          && AllSorted(k, w, rs) && Sorted(k, w, out)
          && forall m :: 0 <= m < |out| ==> NotAfter(k, w, out[m], rs))
  }

  lemma {:induction false} DrainStart(k: Kind, w: bool, sorted: bool, rs: seq<seq<Record>>)
    requires AllUniform(w, rs) && (sorted ==> AllSorted(k, w, rs))
    ensures Drained(k, w, sorted, Total(rs), [], rs)
  {
  }

  /** One step of a drain: the least head extends the output. */
  lemma {:induction false} DrainStep(k: Kind, w: bool, sorted: bool, total: multiset<Record>, out: seq<Record>, rs: seq<seq<Record>>, i: int)
    requires |rs| <= 0x8000_0000 && Drained(k, w, sorted, total, out, rs) && IsFirst(k, w, rs, i)
    ensures Drained(k, w, sorted, total, out + [rs[i][0]], rs[i := rs[i][1..]])
  {
    var x := rs[i][0];
    var rs' := rs[i := rs[i][1..]];
    var out' := out + [x];
    TakeFront(rs, i);
    assert multiset(out') + Total(rs') == total by {
      assert multiset(out') == multiset(out) + multiset{x};
    }
    UniformAfter(w, rs, i);
    assert Uniform(w, out');
    if sorted {
      FirstIsLeast(k, w, rs, i);
      SortedStep(k, w, out, rs, i);
      NotAfterStep(k, w, out, rs, i);
    }
  }

  lemma {:induction false} UniformAfter(w: bool, rs: seq<seq<Record>>, i: int)
    requires AllUniform(w, rs) && 0 <= i < |rs| && rs[i] != []
    ensures Family(w, rs[i][0]) && AllUniform(w, rs[i := rs[i][1..]])
  {
    var rs' := rs[i := rs[i][1..]];
    forall j | 0 <= j < |rs'|
      ensures Uniform(w, rs'[j])
    {
      assert Uniform(w, rs[j]);
    }
  }

  /** The least head comes after every record already out. */
  lemma {:induction false} SortedStep(k: Kind, w: bool, out: seq<Record>, rs: seq<seq<Record>>, i: int)
    requires AllUniform(w, rs) && 0 <= i < |rs| && rs[i] != []
    requires Uniform(w, out) && Sorted(k, w, out)
    requires forall m :: 0 <= m < |out| ==> NotAfter(k, w, out[m], rs)
    ensures Uniform(w, out + [rs[i][0]]) && Sorted(k, w, out + [rs[i][0]])
  {
    var out' := out + [rs[i][0]];
    forall m, n | 0 <= m < n < |out'|
      ensures Cmp(k, w, out'[m], out'[n]) <= 0
    {
      if n == |out| {
        assert NotAfter(k, w, out[m], rs);
      }
    }
  }

  /** Taking the least head out keeps every record out no greater than
      what is still to come. */
  lemma {:induction false} NotAfterStep(k: Kind, w: bool, out: seq<Record>, rs: seq<seq<Record>>, i: int)
    requires AllUniform(w, rs) && 0 <= i < |rs| && rs[i] != [] && AllUniform(w, rs[i := rs[i][1..]])
    requires Uniform(w, out) && Family(w, rs[i][0])
    requires forall m :: 0 <= m < |out| ==> NotAfter(k, w, out[m], rs)
    requires NotAfter(k, w, rs[i][0], rs[i := rs[i][1..]])
    ensures forall m :: 0 <= m < |out| + 1 ==> NotAfter(k, w, (out + [rs[i][0]])[m], rs[i := rs[i][1..]])
  {
    var rs' := rs[i := rs[i][1..]];
    var out' := out + [rs[i][0]];
    forall m | 0 <= m < |out'|
      ensures NotAfter(k, w, out'[m], rs')
    {
      if m < |out| {
        forall j, n | 0 <= j < |rs'| && 0 <= n < |rs'[j]|
          ensures Cmp(k, w, out'[m], rs'[j][n]) <= 0
        {
          assert NotAfter(k, w, out[m], rs);
          if j == i {
            assert rs'[j][n] == rs[i][n + 1];
          }
        }
      }
    }
  }

  lemma {:induction false} SizeZero(rs: seq<seq<Record>>)
    ensures Size(rs) == 0 <==> forall j :: 0 <= j < |rs| ==> rs[j] == []
  {
    if rs != [] {
      SizeZero(rs[1..]);
      assert forall j :: 1 <= j < |rs| ==> rs[j] == rs[1..][j - 1];
    }
  }
}
