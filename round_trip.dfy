/** The archive's lossless round trip: what DataTool.sort writes for a
    stream, DataProcessor.copyAndProcess turns back into that stream. Chunk
    i of the input carries id i + 1; the unpacking side ends with one block
    per id, in id order, each holding the payload of its chunk, so the
    payloads written one after the other are the input again. */
module RoundTrip {
  import opened Base
  import opened VarLong
  import opened RecordFormat
  import opened Merge
  import opened Processor
  import Chunker
  import Sorter
  import Passes
  import MergePasses
  import SortMerge
  import Unpack

  // ---------------------------------------------------------------------
  // The blocks the unpacking side should end with
  // ---------------------------------------------------------------------

  /** Block `id` holding the payload of chunk id - 1, for the chunks `ps`. */
  predicate Canon(x: Record, ps: seq<Chunker.Piece>)
  {
    |x.ids| == 1 && x.key.None? && 1 <= x.ids[0] as int <= |ps| && x.payload == ps[x.ids[0] - 1].payload
  }

  /** The blocks for the chunks `ps`: one per chunk, ids 1, 2, ... */
  function Canonical(ps: seq<Chunker.Piece>): (r: seq<Record>)
    requires |ps| <= Sorter.LAST_ID
    ensures |r| == |ps| && forall i :: 0 <= i < |ps| ==> r[i] == Record([(i + 1) as i64], None, ps[i].payload)
  {
    seq(|ps|, i requires 0 <= i < |ps| => Record([(i + 1) as i64], None, ps[i].payload))
  }

  /** The blocks for the chunks are exactly the records that stand for
      them, each once. */
  lemma {:induction false} CanonicalCount(ps: seq<Chunker.Piece>, x: Record)
    requires |ps| <= Sorter.LAST_ID
    ensures multiset(Canonical(ps))[x] == if Canon(x, ps) then 1 else 0
  {
    if ps != [] {
      var n := |ps| - 1;
      var front := ps[..n];
      var top := Record([(n + 1) as i64], None, ps[n].payload);
      assert Canonical(ps) == Canonical(front) + [top];
      CanonicalCount(front, x);
      assert Canon(x, ps) <==> Canon(x, front) || x == top by {
        if Canon(x, ps) && x.ids[0] as int == n + 1 {
          assert x.ids == [x.ids[0]];
        }
      }
    }
  }

  /** Their payloads, one after the other, are the chunks joined. */
  lemma {:induction false} CanonicalPayloads(ps: seq<Chunker.Piece>)
    requires |ps| <= Sorter.LAST_ID
    ensures MergePasses.Payloads(Canonical(ps)) == Chunker.Joined(ps)
  {
    if ps != [] {
      var n := |ps| - 1;
      assert Canonical(ps)[..n] == Canonical(ps[..n]);
      CanonicalPayloads(ps[..n]);
      assert ps == ps[..n] + [ps[n]];
      Sorter.JoinedAppend(ps[..n], [ps[n]]);
      assert Chunker.Joined([ps[n]]) == ps[n].payload + Chunker.Joined([]);
    }
  }

  /** The blocks for one more chunk: those for the others, then its own. */
  lemma {:induction false} CanonicalSnoc(ps: seq<Chunker.Piece>)
    requires 1 <= |ps| <= Sorter.LAST_ID
    ensures Canonical(ps) == Canonical(ps[..|ps| - 1]) + [Record([|ps| as i64], None, ps[|ps| - 1].payload)]
  {
    var n := |ps| - 1;
    var a, b := Canonical(ps), Canonical(ps[..n]) + [Record([|ps| as i64], None, ps[n].payload)];
    forall i | 0 <= i < |a|
      ensures a[i] == b[i]
    {
      if i < n {
        assert ps[..n][i] == ps[i];
      }
    }
  }

  /** Sorted blocks that are the blocks for the chunks end with the block
      of the last chunk: no other block has an id as large. */
  lemma {:induction false} SortedLast(blocks: seq<Record>, ps: seq<Chunker.Piece>)
    requires 1 <= |ps| <= Sorter.LAST_ID && |blocks| == |ps|
    requires Uniform(false, blocks) && Sorted(Blocks, false, blocks)
    requires multiset(blocks) == multiset(Canonical(ps))
    ensures blocks[|ps| - 1] == Record([|ps| as i64], None, ps[|ps| - 1].payload)
  {
    var n := |ps| - 1;
    var top := Record([|ps| as i64], None, ps[n].payload);
    assert top == Canonical(ps)[n];
    assert top in multiset(blocks);
    var j :| 0 <= j < |blocks| && blocks[j] == top;
    var last := blocks[n];
    CanonicalCount(ps, last);
    assert last in multiset(blocks);
    if j < n {
      BlocksOrder(blocks[j], last);
    }
    CanonById(last, top, ps);
  }

  /** Blocks in DataBlock order that are, as a multiset, the blocks for
      the chunks are those blocks in id order. */
  lemma {:induction false} SortedCanonical(blocks: seq<Record>, ps: seq<Chunker.Piece>)
    requires |ps| <= Sorter.LAST_ID
    requires Uniform(false, blocks) && Sorted(Blocks, false, blocks)
    requires multiset(blocks) == multiset(Canonical(ps))
    ensures blocks == Canonical(ps)
  {
    assert |blocks| == |multiset(blocks)| == |Canonical(ps)|;
    if ps != [] {
      var n := |ps| - 1;
      var top := Record([|ps| as i64], None, ps[n].payload);
      CanonicalSnoc(ps);
      SortedLast(blocks, ps);
      var front := blocks[..n];
      assert blocks == front + [top];
      assert multiset(front) + multiset{top} == multiset(Canonical(ps[..n])) + multiset{top};
      Cancel(multiset(front), multiset(Canonical(ps[..n])), multiset{top});
      assert Uniform(false, front) && Sorted(Blocks, false, front) by {
        assert forall m :: 0 <= m < |front| ==> front[m] == blocks[m];
      }
      SortedCanonical(front, ps[..n]);
    }
  }

  /** Taking the same records away from equal multisets leaves equal multisets. */
  lemma {:induction false} Cancel(a: multiset<Record>, b: multiset<Record>, t: multiset<Record>)
    requires a + t == b + t
    ensures a == b
  {
    forall x
      ensures a[x] == b[x]
    {
      assert (a + t)[x] == (b + t)[x];
    }
  }

  /** Among key-less blocks, DataBlock order is first-id order. */
  lemma {:induction false} BlocksOrder(a: Record, b: Record)
    requires Family(false, a) && Family(false, b)
    ensures Cmp(Blocks, false, a, b) <= 0 <==> a.ids[0] <= b.ids[0]
  {
  }

  /** A block standing for a chunk is fixed by its id. */
  lemma {:induction false} CanonById(x: Record, y: Record, ps: seq<Chunker.Piece>)
    requires Canon(x, ps) && Canon(y, ps) && x.ids[0] == y.ids[0]
    ensures x == y
  {
    assert x.ids == [x.ids[0]] && y.ids == [y.ids[0]];
  }

  // ---------------------------------------------------------------------
  // What the first pass of the unpacking side makes of the records
  // ---------------------------------------------------------------------

  /** A key-less record standing for chunks of `ps`: every id it lists is
      a chunk's, and it carries that chunk's payload. */
  predicate SaneRecord(r: Record, ps: seq<Chunker.Piece>)
  {
    && Storable(r, false) && r.key.None?
    && forall k :: 0 <= k < |r.ids| ==> 1 <= r.ids[k] as int <= |ps| && r.payload == ps[r.ids[k] - 1].payload
  }

  predicate Sane(recs: seq<Record>, ps: seq<Chunker.Piece>)
  {
    forall j :: 0 <= j < |recs| ==> SaneRecord(recs[j], ps)
  }

  /** An id is carried by a list of records exactly when one of them lists it. */
  lemma {:induction false} IdsMember(recs: seq<Record>, id: i64)
    ensures Ids(recs)[id] >= 1 <==> exists n :: 0 <= n < |recs| && id in recs[n].ids
  {
    if recs != [] {
      IdsMember(recs[1..], id);
      if id !in recs[0].ids && Ids(recs[1..])[id] == 0 {
        forall n | 0 <= n < |recs|
          ensures id !in recs[n].ids
        {
          if n > 0 {
            assert recs[n] == recs[1..][n - 1];
          }
        }
      } else if id in recs[0].ids {
        assert id in multiset(recs[0].ids);
      } else {
        var n :| 0 <= n < |recs[1..]| && id in recs[1..][n].ids;
        assert recs[n + 1] == recs[1..][n];
      }
    }
  }

  /** The TreeMap's entries hold a record exactly when it is the one-id,
      key-less record of an entry. */
  lemma {:induction false} ListingCount(t: Table, x: Record)
    ensures multiset(Listing(t))[x] ==
            if |x.ids| == 1 && x.key.None? && x.ids[0] in t && t[x.ids[0]] == x.payload then 1 else 0
    decreases t.Keys
  {
    if t != map[] {
      var k := Least(t.Keys);
      assert Listing(t) == [Record([k], None, t[k])] + Listing(t - {k});
      ListingCount(t - {k}, x);
      if |x.ids| == 1 && x.ids[0] == k {
        assert x == Record([k], None, t[k]) <==> x.key.None? && x.payload == t[k];
      }
    }
  }

  /** In the map a group of sane records puts, an id holds the payload of
      the chunk it stands for. */
  lemma {:induction false} ExpandSane(group: seq<Record>, ps: seq<Chunker.Piece>, k: i64)
    requires Sane(group, ps) && k in Expand(group)
    ensures 1 <= k as int <= |ps| && Expand(group)[k] == ps[k - 1].payload
  {
    ExpandLast(group, k);
    var n :| 0 <= n < |group| && k in group[n].ids && Expand(group)[k] == group[n].payload &&
             forall m :: n < m < |group| ==> k !in group[m].ids;
    var i :| 0 <= i < |group[n].ids| && group[n].ids[i] == k;
    assert SaneRecord(group[n], ps);
  }

  /** The map a group puts holds exactly the ids the group lists. */
  lemma {:induction false} ExpandIds(group: seq<Record>, k: i64)
    ensures k in Expand(group) <==> Ids(group)[k] >= 1
  {
    ExpandLast(group, k);
    IdsMember(group, k);
  }

  /** The segment one group of sane records becomes: the block for chunk
      id - 1 once for every id the group lists, and nothing else. */
  lemma {:induction false} SegmentCount(group: seq<Record>, ps: seq<Chunker.Piece>, x: Record)
    requires Sane(group, ps)
    ensures multiset(Listing(Expand(group)))[x] ==
            if Canon(x, ps) && Ids(group)[x.ids[0]] >= 1 then 1 else 0
  {
    var t := Expand(group);
    ListingCount(t, x);
    if |x.ids| == 1 && x.key.None? {
      var k := x.ids[0];
      ExpandIds(group, k);
      if k in t {
        ExpandSane(group, ps, k);
      }
    }
  }

  lemma {:induction false} SegmentsSnoc(groups: seq<seq<Record>>, group: seq<Record>)
    ensures Total(Unpack.Segments(groups + [group])) ==
            Total(Unpack.Segments(groups)) + multiset(Listing(Expand(group)))
  {
    var s := Listing(Expand(group));
    assert Unpack.Segments(groups + [group]) == Unpack.Segments(groups) + [s];
    TotalAppend(Unpack.Segments(groups), [s]);
    assert [s][1..] == [];
  }

  /** Over all segments: the block for chunk id - 1 once when some group
      lists the id, provided no id is listed twice. */
  lemma {:induction false} TotalCount(groups: seq<seq<Record>>, ps: seq<Chunker.Piece>, x: Record)
    requires Sane(Passes.Joined(groups), ps)
    requires |x.ids| >= 1 ==> Ids(Passes.Joined(groups))[x.ids[0]] <= 1
    ensures Total(Unpack.Segments(groups))[x] ==
            if Canon(x, ps) && Ids(Passes.Joined(groups))[x.ids[0]] >= 1 then 1 else 0
  {
    if groups != [] {
      var n := |groups| - 1;
      var front, group := groups[..n], groups[n];
      assert groups == front + [group];
      Passes.JoinedSnoc(front, group);
      var before := Passes.Joined(front);
      IdsAppend(before, group);
      assert Sane(before, ps) && Sane(group, ps) by {
        assert forall j :: 0 <= j < |before| ==> (before + group)[j] == before[j];
        assert forall j :: 0 <= j < |group| ==> (before + group)[|before| + j] == group[j];
      }
      TotalCount(front, ps, x);
      SegmentCount(group, ps, x);
      SegmentsSnoc(front, group);
    }
  }

  // ---------------------------------------------------------------------
  // From the records sort writes to the blocks copyAndProcess writes
  // ---------------------------------------------------------------------

  /** ids lo .. hi - 1 each once. */
  lemma {:induction false} IdRangeCount(lo: int, hi: int, k: i64)
    requires 1 <= lo <= hi <= Sorter.LAST_ID + 1
    ensures Sorter.IdRange(lo, hi)[k] == if lo <= k as int < hi then 1 else 0
    decreases hi - lo
  {
    if lo < hi {
      IdRangeCount(lo, hi - 1, k);
    }
  }

  lemma {:induction false} StoredIds(recs: seq<Record>)
    ensures Ids(StoredAll(recs, false)) == Ids(recs)
  {
    if recs != [] {
      StoredIds(recs[1..]);
    }
  }

  lemma {:induction false} StoredSane(final: seq<Record>, ps: seq<Chunker.Piece>)
    requires forall n :: 0 <= n < |final| ==> Sorter.Sound(final[n], ps)
    ensures Sane(StoredAll(final, false), ps)
  {
    if final != [] {
      StoredSane(final[1..], ps);
      var s := StoredAll(final, false);
      assert s == [Stored(final[0], false)] + StoredAll(final[1..], false);
      assert SaneRecord(s[0], ps) by {
        assert Sorter.Sound(final[0], ps);
      }
      assert forall j :: 1 <= j < |s| ==> s[j] == StoredAll(final[1..], false)[j - 1];
    }
  }

  /** The unpacking side, given the records sort wrote (each chunk's id
      listed once, in the record holding its payload), ends with the
      payloads of the chunks in id order. */
  lemma {:induction false} BlocksGiveInput(ps: seq<Chunker.Piece>, final: seq<Record>, groups: seq<seq<Record>>, blocks: seq<Record>)
    requires |ps| <= Sorter.LAST_ID
    requires Sorter.Good(final, ps) && Ids(final) == Sorter.IdRange(1, |ps| + 1)
    requires Passes.Grouped(StoredAll(final, false), groups)
    requires multiset(blocks) == Total(Unpack.Segments(groups))
    requires Uniform(false, blocks) && Sorted(Blocks, false, blocks)
    ensures MergePasses.Payloads(blocks) == Chunker.Joined(ps)
  {
    var recs := StoredAll(final, false);
    StoredSane(final, ps);
    StoredIds(final);
    forall x
      ensures multiset(blocks)[x] == multiset(Canonical(ps))[x]
    {
      if |x.ids| >= 1 {
        IdRangeCount(1, |ps| + 1, x.ids[0]);
      }
      TotalCount(groups, ps, x);
      CanonicalCount(ps, x);
    }
    assert multiset(blocks) == multiset(Canonical(ps));
    SortedCanonical(blocks, ps);
    CanonicalPayloads(ps);
  }

  /** The archive sort writes passes copyAndProcess's header checks, and
      its body reads back as the records without their keys. */
  lemma {:induction false} ArchiveParses(final: seq<Record>, ps: seq<Chunker.Piece>, size: i64, out: seq<byte>)
    requires forall n :: 0 <= n < |final| ==> Sorter.Sound(final[n], ps)
    requires out == MAGIC + Encode(U64(size)) + EncodeSegment(final, false)
    ensures |out| >= 4 && out[..4] == MAGIC && Decode(out[4..]).Ok?
    ensures ParseSegment(out[4 + Decode(out[4..]).value.size..], false) == Ok(StoredAll(final, false))
  {
    var e := Encode(U64(size));
    var body := EncodeSegment(final, false);
    assert out[4..] == e + body;
    EncodeDecode(size, body);
    assert out[4 + |e|..] == body + [];
    forall n | 0 <= n < |final|
      ensures Storable(final[n], false)
    {
      assert Sorter.Sound(final[n], ps);
    }
    SegmentRoundTrip(final, false, []);
  }

  // ---------------------------------------------------------------------
  // The round trip
  // ---------------------------------------------------------------------

  /** copyAndProcess on an archive sort wrote: the chunks, joined in id
      order. */
  method UnpackArchive(packed: seq<byte>, ghost final: seq<Record>, ghost ps: seq<Chunker.Piece>, ghost size: i64)
    returns (r: Result<seq<byte>>)
    requires |ps| <= Sorter.LAST_ID
    requires Sorter.Good(final, ps) && Ids(final) == Sorter.IdRange(1, |ps| + 1)
    requires packed == MAGIC + Encode(U64(size)) + EncodeSegment(final, false)
    ensures r == Ok(Chunker.Joined(ps))
  {
    ArchiveParses(final, ps, size, packed);
    ghost var groups, blocks;
    r, groups, blocks := Unpack.CopyAndProcess(packed);
    BlocksGiveInput(ps, final, groups, blocks);
  }

  /** sort, then copyAndProcess on what it wrote (the DEFLATE stage in
      between taken as the identity): every non-empty stream comes back
      unchanged; the empty stream still stops at openSegments' division
      by zero. */
  method PackUnpack(input: seq<byte>, size: i64) returns (r: Result<seq<byte>>)
    requires |input| < Sorter.LAST_ID
    ensures input != [] ==> r == Ok(input)
    ensures input == [] ==> r == Err(DivisionByZero)
  {
    var packed;
    ghost var final;
    packed, final := SortMerge.Sort(input, size);
    if packed.Err? {
      return Err(packed.error);
    }
    r := UnpackArchive(packed.value, final, Sorter.Pieces(input), size);
    Sorter.PiecesCover(input);
  }

  /** The same with openSegments guarded: every stream, the empty one
      included, comes back unchanged. */
  method PackUnpackGuarded(input: seq<byte>, size: i64) returns (r: Result<seq<byte>>)
    requires |input| < Sorter.LAST_ID
    ensures r == Ok(input)
  {
    var packed;
    ghost var final;
    packed, final := SortMerge.SortGuarded(input, size);
    r := UnpackArchive(packed, final, Sorter.Pieces(input), size);
    Sorter.PiecesCover(input);
  }
}
