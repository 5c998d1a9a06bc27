/** DataProcessor.copyAndProcess, the unpacking side of the archive: it
    checks the "H2A1" magic, skips the total size, and reads the archive's
    records; each record carries the ids of every place its payload occurs.
    The first pass turns runs of records into segments of a temporary file,
    one record per id in ascending id order; while there are more than 64
    segments, groups of 64 are merged into one; the final pass merges what
    is left and writes the payloads in id order. Files are byte strings: the
    temporary file is `file`, its segment starts `offsets`. */
module Processor {
  import opened Base
  import opened VarLong
  import opened RecordFormat
  import DataBlock
  import opened Merge

  /** "H2A1". */
  const MAGIC: seq<byte> := [72, 50, 65, 49]

  /** A first-pass segment stops taking records once their payload bytes,
      summed in a Java int, reach this. */
  const LIMIT: int := 16777216

  /** The most segments one merge reads at once. */
  const FAN_IN: int := 64

  /** The read-buffer memory buildIndex shares among its streams. */
  const INDEX_MEMORY: int := 67108864

  // ---------------------------------------------------------------------
  // The TreeMap<Long, byte[]> of the first pass
  // ---------------------------------------------------------------------

  /** `dataMap`: payload by id. */
  type Table = map<i64, seq<byte>>

  /** What the table can hold: ids read from a record (never 0) and
      payloads that fit a Java array. */
  predicate Stocked(t: Table)
  {
    forall id :: id in t ==> id != 0 && |t[id]| <= MAX_ARRAY
  }

  /** `for (Long id : db.offsets) dataMap.put(id, db.payload)`. */
  function Put(t: Table, ids: seq<i64>, payload: seq<byte>): Table
  {
    t + map id | id in ids :: payload
  }

  /** The table after putting every record of `group`, in order. */
  function Expand(group: seq<Record>): Table
  {
    if group == [] then map[]
    else
      var last := group[|group| - 1];
      Put(Expand(group[..|group| - 1]), last.ids, last.payload)
  }

  /** An id of the table is an id of some record of the group, and its
      payload is that of the last record of the group carrying it. */
  lemma {:induction false} ExpandLast(group: seq<Record>, id: i64)
    ensures id in Expand(group) <==> exists n :: 0 <= n < |group| && id in group[n].ids
    ensures id in Expand(group) ==>
              exists n :: 0 <= n < |group| && id in group[n].ids && Expand(group)[id] == group[n].payload &&
                forall m :: n < m < |group| ==> id !in group[m].ids
  {
    if group != [] {
      var k := |group| - 1;
      var front := group[..k];
      ExpandLast(front, id);
      if id in group[k].ids {
        assert Expand(group)[id] == group[k].payload;
      } else if id in Expand(front) {
        var n :| 0 <= n < k && id in front[n].ids && Expand(front)[id] == front[n].payload &&
                 forall m :: n < m < k ==> id !in front[m].ids;
        assert group[n] == front[n];
        forall m | n < m < |group|
          ensures id !in group[m].ids
        {
          if m < k {
            assert group[m] == front[m];
          }
        }
      } else {
        forall n | 0 <= n < |group|
          ensures id !in group[n].ids
        {
          if n < k {
            assert group[n] == front[n];
          }
        }
      }
    }
  }

  /** The loop putting the ids of one record. */
  method PutAll(t: Table, ids: seq<i64>, payload: seq<byte>) returns (r: Table)
    ensures r == Put(t, ids, payload)
  {
    r := t;
    for k := 0 to |ids|
      invariant r == Put(t, ids[..k], payload)
    {
      assert ids[..k + 1] == ids[..k] + [ids[k]];
      r := r[ids[k] := payload];
    }
    assert ids[..|ids|] == ids;
  }

  // ---------------------------------------------------------------------
  // The records the processor writes: one id each
  // ---------------------------------------------------------------------

  /** `(id, 0, length, payload)`: a record with one id and no metadata. */
  predicate Single(r: Record)
  {
    |r.ids| == 1 && r.ids[0] != 0 && r.key.None? && |r.payload| <= MAX_ARRAY
  }

  predicate Singles(recs: seq<Record>)
  {
    forall n :: 0 <= n < |recs| ==> Single(recs[n])
  }

  /** Ids strictly ascending. */
  predicate Ascending(recs: seq<Record>)
    requires Singles(recs)
  {
    forall m, n :: 0 <= m < n < |recs| ==> recs[m].ids[0] < recs[n].ids[0]
  }

  /** Every record of `recs` is an entry of `t`, and every entry of `t`
      is a record of `recs`. */
  predicate Covers(recs: seq<Record>, t: Table)
    requires Singles(recs)
  {
    && (forall n :: 0 <= n < |recs| ==> recs[n].ids[0] in t && t[recs[n].ids[0]] == recs[n].payload)
    && (forall id :: id in t ==> exists n :: 0 <= n < |recs| && recs[n].ids[0] == id)
  }

  /** `recs` is `dataMap.entrySet()` in iteration order: the table's
      entries, one record each, in ascending id order. */
  predicate Lists(recs: seq<Record>, t: Table)
  {
    Singles(recs) && Ascending(recs) && Covers(recs, t)
  }

  /** A least key of a non-empty set of ids, found by taking one key out. */
  lemma {:induction false} LeastOf(keys: set<i64>) returns (k: i64)
    requires keys != {}
    ensures k in keys && forall j :: j in keys ==> k <= j
  {
    var x :| x in keys;
    var rest := keys - {x};
    if rest == {} {
      k := x;
      forall j | j in keys
        ensures x == j
      {
        assert j !in rest;
      }
    } else {
      var m := LeastOf(rest);
      k := if x < m then x else m;
      forall j | j in keys
        ensures k <= j
      {
        if j != x {
          assert j in rest;
        }
      }
    }
  }

  lemma {:induction false} LeastKey(keys: set<i64>)
    requires keys != {}
    ensures exists k :: k in keys && forall j :: j in keys ==> k <= j
  {
    var k := LeastOf(keys);
  }

  /** The least key of a non-empty set of ids: where TreeMap iteration starts. */
  function Least(keys: set<i64>): (k: i64)
    requires keys != {}
    ensures k in keys && forall j :: j in keys ==> k <= j
  {
    LeastKey(keys);
    var k :| k in keys && forall j :: j in keys ==> k <= j; k
  }

  /** The entries of a table as TreeMap hands them out: least id first,
      then the entries of the rest of the table. */
  function Listing(t: Table): seq<Record>
    decreases t.Keys
  {
    if t == map[] then []
    else
      var k := Least(t.Keys);
      [Record([k], None, t[k])] + Listing(t - {k})
  }

  lemma {:induction false} ConsSingles(r: Record, rest: seq<Record>)
    requires Single(r) && Singles(rest)
    ensures Singles([r] + rest)
  {
    assert forall n :: 0 < n < |rest| + 1 ==> ([r] + rest)[n] == rest[n - 1];
  }

  /** A record whose id is below every id of the rest keeps the ids ascending. */
  lemma {:induction false} ConsAscending(r: Record, rest: seq<Record>, t: Table)
    requires Single(r) && Singles(rest) && Ascending(rest) && Covers(rest, t)
    requires forall id :: id in t ==> r.ids[0] < id
    ensures Singles([r] + rest) && Ascending([r] + rest)
  {
    ConsSingles(r, rest);
    var recs := [r] + rest;
    forall m, n | 0 <= m < n < |recs|
      ensures recs[m].ids[0] < recs[n].ids[0]
    {
      assert recs[n] == rest[n - 1];
      assert rest[n - 1].ids[0] in t;
      if m > 0 {
        assert recs[m] == rest[m - 1];
      }
    }
  }

  /** Adding the entry `k` to a table and its record to the front of a
      listing of the rest covers the whole table. */
  lemma {:induction false} ConsCovers(t: Table, k: i64, rest: seq<Record>)
    requires k in t && Singles(rest) && Covers(rest, t - {k})
    requires Single(Record([k], None, t[k]))
    ensures Singles([Record([k], None, t[k])] + rest)
    ensures Covers([Record([k], None, t[k])] + rest, t)
  {
    var r := Record([k], None, t[k]);
    ConsSingles(r, rest);
    var recs := [r] + rest;
    forall n | 0 <= n < |recs|
      ensures recs[n].ids[0] in t && t[recs[n].ids[0]] == recs[n].payload
    {
      if n > 0 {
        assert recs[n] == rest[n - 1];
      }
    }
    forall id | id in t
      ensures exists n :: 0 <= n < |recs| && recs[n].ids[0] == id
    {
      if id != k {
        assert id in t - {k};
        var n :| 0 <= n < |rest| && rest[n].ids[0] == id;
        assert recs[n + 1].ids[0] == id;
      } else {
        assert recs[0].ids[0] == id;
      }
    }
  }

  /** The listing has one record per entry, with the entry's payload, in
      strictly ascending id order, and nothing else. */
  lemma {:induction false} ListingLists(t: Table)
    requires Stocked(t)
    ensures Lists(Listing(t), t)
    decreases t.Keys
  {
    if t != map[] {
      var k := Least(t.Keys);
      var t' := t - {k};
      assert Stocked(t');
      ListingLists(t');
      var rest := Listing(t');
      assert Single(Record([k], None, t[k]));
      ConsCovers(t, k, rest);
      ConsAscending(Record([k], None, t[k]), rest, t');
    }
  }

  /** One record per table entry in ascending id order: TreeMap.entrySet(). */
  method Entries(t: Table) returns (recs: seq<Record>)
    ensures recs == Listing(t)
  {
    recs := [];
    var rest := t;
    while rest != map[]
      invariant recs + Listing(rest) == Listing(t)
      decreases rest.Keys
    {
      var k := Least(rest.Keys);
      recs := recs + [Record([k], None, rest[k])];
      rest := rest - {k};
    }
  }

  /** The first id of a record alone, with its payload: what the merge
      writes for each block (`block.offsets.get(0)`). */
  function First(r: Record): (f: Record)
    requires |r.ids| >= 1
    ensures f.ids == [r.ids[0]] && f.key.None? && f.payload == r.payload
  {
    Record([r.ids[0]], None, r.payload)
  }

  function Firsts(recs: seq<Record>): (r: seq<Record>)
    requires forall n :: 0 <= n < |recs| ==> |recs[n].ids| >= 1
    ensures |r| == |recs| && forall n :: 0 <= n < |recs| ==> r[n] == First(recs[n])
  {
    seq(|recs|, n requires 0 <= n < |recs| => First(recs[n]))
  }

  /** Records that already carry one id and no metadata are kept as they are. */
  lemma {:induction false} FirstsOfSingles(recs: seq<Record>)
    requires Singles(recs)
    ensures Firsts(recs) == recs
  {
    forall n | 0 <= n < |recs|
      ensures Firsts(recs)[n] == recs[n]
    {
      assert recs[n].ids == [recs[n].ids[0]];
    }
  }

  // ---------------------------------------------------------------------
  // Writing segments
  // ---------------------------------------------------------------------

  /** writeVarLong(id), writeVarLong(0), writeVarLong(length), the payload;
      the count of bytes as the writeVarLong returns and the length add up. */
  method WriteBlock(id: i64, payload: seq<byte>) returns (bytes: seq<byte>, count: int)
    requires |payload| <= MAX_ARRAY
    ensures bytes == EncodeRecord(Record([id], None, payload), false)
    ensures count == |bytes|
  {
    var w1, n1 := ProcessorWriteVarLong(id);
    var w2, n2 := ProcessorWriteVarLong(0);
    var w3, n3 := ProcessorWriteVarLong(|payload|);
    assert w2 == Encode(0) && w3 == Encode(|payload|);
    assert EncodeIds([id]) == w1 by {
      assert [id][1..] == [];
    }
    bytes := w1 + w2 + (w3 + payload);
    count := n1 + n2 + n3 + |payload|;
  }

  /** A segment as both passes write it: each record as its first id and
      payload, then the closing 0. */
  method WriteSegment(recs: seq<Record>) returns (bytes: seq<byte>, count: int)
    requires forall n :: 0 <= n < |recs| ==> |recs[n].ids| >= 1 && |recs[n].payload| <= MAX_ARRAY
    ensures bytes == EncodeSegment(Firsts(recs), false)
    ensures count == |bytes|
  {
    bytes := [];
    count := 0;
    for n := 0 to |recs|
      invariant bytes == EncodeRecords(Firsts(recs[..n]), false)
      invariant count == |bytes|
    {
      var w, c := WriteBlock(recs[n].ids[0], recs[n].payload);
      assert Firsts(recs[..n + 1]) == Firsts(recs[..n]) + [First(recs[n])];
      EncodeRecordsAppend(Firsts(recs[..n]), [First(recs[n])], false);
      assert EncodeRecords([First(recs[n])], false) == w;
      bytes := bytes + w;
      count := count + c;
    }
    assert recs[..|recs|] == recs;
    var z, c := ProcessorWriteVarLong(0);
    bytes := bytes + z;
    count := count + c;
  }

  /** Every segment holds one-id records. */
  predicate Plain(segs: seq<seq<Record>>)
  {
    forall g :: 0 <= g < |segs| ==> Singles(segs[g])
  }

  /** A temporary file as every pass leaves it: its segments laid out one
      after the other, each of one-id records in DataBlock order. */
  ghost predicate Holds(file: seq<byte>, offsets: seq<nat>, segs: seq<seq<Record>>)
  {
    Laid(file, offsets, segs, false) && Plain(segs) && AllUniform(false, segs) && AllSorted(Blocks, false, segs)
  }

  /** Writing one more such segment at the end of the file. */
  lemma {:induction false} HoldsSnoc(file: seq<byte>, offsets: seq<nat>, segs: seq<seq<Record>>, seg: seq<Record>)
    requires Holds(file, offsets, segs) && Singles(seg) && Uniform(false, seg) && Sorted(Blocks, false, seg)
    ensures Holds(file + EncodeSegment(seg, false), offsets + [|file|], segs + [seg])
  {
    var segs' := segs + [seg];
    LaidSnoc(file, offsets, segs, seg, false);
    assert segs'[|segs|] == seg;
    assert forall g :: 0 <= g < |segs| ==> segs'[g] == segs[g];
  }

  /** Stored without metadata, a record without metadata reads back as itself. */
  lemma {:induction false} StoredPlain(recs: seq<Record>)
    requires Singles(recs)
    ensures StoredAll(recs, false) == recs
  {
    if recs != [] {
      assert Singles(recs[1..]) by {
        assert forall n :: 0 <= n < |recs| - 1 ==> recs[1..][n] == recs[n + 1];
      }
      StoredPlain(recs[1..]);
      assert Stored(recs[0], false) == recs[0];
      assert recs == [recs[0]] + recs[1..];
    }
  }

  /** The stream opened at `offsets[i]` reads back segment i. */
  lemma {:induction false} PlainSegment(file: seq<byte>, offsets: seq<nat>, segs: seq<seq<Record>>, i: int)
    requires Laid(file, offsets, segs, false) && Plain(segs) && 0 <= i < |segs|
    ensures offsets[i] <= |file|
    ensures ParseSegment(file[offsets[i]..], false) == Ok(segs[i])
  {
    LaidFrom(file, offsets, segs, i, false);
    assert Singles(segs[i]);
    SegmentRoundTrip(segs[i], false, Layout(segs[i + 1..], false));
    StoredPlain(segs[i]);
  }
}
