/** The passes of DataTool.sort after the first. While more than 64
    segments remain, each run of 64 (fewer for the last) is merged into one
    segment of a new temporary file: the merged chunks come out in
    Chunk.compareTo order and a chunk equal to the one before it only adds
    its ids to that one (`last.idList.addAll(c.idList)`). The final merge
    writes the archive: "H2A1", the total size, the records without their
    keys, and a closing 0. Files are byte strings; opening a file at an
    offset is taking its bytes from there on. */
module SortMerge {
  import opened Base
  import opened VarLong
  import opened RecordFormat
  import Chunk
  import opened Merge
  import opened Chunker
  import opened Sorter
  import Processor
  import MergePasses

  /** `bufferTotal`: the read-buffer memory openSegments shares among its streams. */
  const STREAM_MEMORY: int := 67108864

  /** The most segments one merge reads at once (`blockSize`). */
  const FAN_IN: int := 64

  // ---------------------------------------------------------------------
  // The order of keyed chunks
  // ---------------------------------------------------------------------

  /** Keyed chunks with the same key and bytes compare alike against any other. */
  lemma {:induction false} SameKey(b: Record, a: Record, c: Record)
    requires Family(true, a) && Family(true, b) && Family(true, c)
    ensures a.key == c.key && a.payload == c.payload ==>
              Chunk.Compare(b, a) == Chunk.Compare(b, c) && Chunk.Compare(a, b) == Chunk.Compare(c, b)
  {
  }

  /** Strictly less is transitive on keyed chunks. */
  lemma {:induction false} LessTransitive(a: Record, b: Record, c: Record)
    requires Family(true, a) && Family(true, b) && Family(true, c)
    requires Chunk.Compare(a, b) < 0 && Chunk.Compare(b, c) < 0
    ensures Chunk.Compare(a, c) < 0
  {
    Chunk.CompareTransitive(a, b, c);
    Chunk.CompareZero(a, c);
    Chunk.CompareAntisymmetric(a, b);
    SameKey(b, a, c);
  }

  /** A strictly ascending run stays so with a greater chunk at its end. */
  lemma {:induction false} StrictSnoc(t: seq<Record>, c: Record)
    requires Strict(t) && Family(true, c)
    requires t != [] ==> Chunk.Compare(t[|t| - 1], c) < 0
    ensures Strict(t + [c])
  {
    var r := t + [c];
    forall m, n | 0 <= m < n < |r|
      ensures Chunk.Compare(r[m], r[n]) < 0
    {
      if n < |t| {
        assert r[m] == t[m] && r[n] == t[n];
      } else if m < |t| - 1 {
        LessTransitive(t[m], t[|t| - 1], c);
      }
    }
  }

  /** ... and with its last chunk replaced by one of the same key and bytes. */
  lemma {:induction false} StrictReplaceLast(t: seq<Record>, l: Record)
    requires Strict(t) && t != [] && Family(true, l)
    requires l.key == t[|t| - 1].key && l.payload == t[|t| - 1].payload
    ensures Strict(t[..|t| - 1] + [l])
  {
    var r := t[..|t| - 1] + [l];
    forall m, n | 0 <= m < n < |r|
      ensures Chunk.Compare(r[m], r[n]) < 0
    {
      if n < |t| - 1 {
        assert r[m] == t[m] && r[n] == t[n];
      } else {
        assert r[m] == t[m];
        SameKey(t[m], t[|t| - 1], l);
      }
    }
  }

  // ---------------------------------------------------------------------
  // Coalescing equal chunks
  // ---------------------------------------------------------------------

  /** Keyed chunks that compareTo calls equal: the same key and bytes
      (Chunk.CompareZero). */
  predicate Same(a: Record, b: Record)
  {
    a.key == b.key && a.payload == b.payload
  }

  /** One turn of the merge loop: the record `c` joins the last record
      kept when the two are equal (`last.idList.addAll(c.idList)`), and is
      kept after it otherwise. */
  function Absorb(prev: seq<Record>, c: Record): seq<Record>
  {
    if prev != [] && Same(prev[|prev| - 1], c) then
      var l := prev[|prev| - 1];
      prev[..|prev| - 1] + [l.(ids := l.ids + c.ids)]
    else
      prev + [c]
  }

  /** The records the merge loop writes from the records the iterator
      gives, in order: every record absorbed in turn. */
  function Coalesce(recs: seq<Record>): (r: seq<Record>)
    requires Uniform(true, recs)
    ensures Uniform(true, r) && |r| <= |recs| && (r == [] <==> recs == [])
    ensures recs != [] ==> Same(r[|r| - 1], recs[|recs| - 1])
    decreases |recs|
  {
    if recs == [] then []
    else
      var prev := Coalesce(recs[..|recs| - 1]);
      var r := Absorb(prev, recs[|recs| - 1]);
      assert forall n :: 0 <= n < |r| - 1 ==> r[n] == prev[n];
      r
  }

  /** The first record starts the run. */
  lemma {:induction false} CoalesceFirst(recs: seq<Record>)
    requires Uniform(true, recs) && recs != []
    ensures Coalesce(recs[..1]) == [recs[0]]
  {
    assert recs[..1][..0] == [];
  }

  /** One more record is absorbed by the records kept so far. */
  lemma {:induction false} CoalesceNext(recs: seq<Record>, n: int)
    requires Uniform(true, recs) && 0 <= n < |recs|
    ensures Uniform(true, recs[..n])
    ensures Coalesce(recs[..n + 1]) == Absorb(Coalesce(recs[..n]), recs[n])
  {
    assert recs[..n + 1][..n] == recs[..n];
  }

  lemma {:induction false} AbsorbLast(written: seq<Record>, last: Record, c: Record)
    ensures Absorb(written + [last], c) ==
              if Same(last, c) then written + [last.(ids := last.ids + c.ids)] else written + [last, c]
  {
    assert (written + [last])[..|written|] == written;
  }

  /** One more record: it joins the last one kept, or follows it. */
  lemma {:induction false} CoalesceStep(recs: seq<Record>, n: int, written: seq<Record>, last: Record)
    requires Uniform(true, recs) && 0 <= n < |recs|
    requires Coalesce(recs[..n]) == written + [last]
    ensures Coalesce(recs[..n + 1]) ==
              if Same(last, recs[n]) then written + [last.(ids := last.ids + recs[n].ids)]
              else written + [last, recs[n]]
  {
    CoalesceNext(recs, n);
    AbsorbLast(written, last, recs[n]);
  }

  lemma {:induction false} IdsSnoc(t: seq<Record>, c: Record)
    ensures Ids(t + [c]) == Ids(t) + multiset(c.ids)
  {
    IdsAppend(t, [c]);
    IdsSingle(c);
  }

  lemma {:induction false} IdsJoinLast(front: seq<Record>, l: Record, c: Record)
    ensures Ids(front + [l.(ids := l.ids + c.ids)]) == Ids(front + [l]) + multiset(c.ids)
  {
    IdsSnoc(front, l);
    IdsSnoc(front, l.(ids := l.ids + c.ids));
  }

  lemma {:induction false} AbsorbIds(prev: seq<Record>, c: Record)
    ensures Ids(Absorb(prev, c)) == Ids(prev) + multiset(c.ids)
  {
    if prev != [] && Same(prev[|prev| - 1], c) {
      var front := prev[..|prev| - 1];
      assert prev == front + [prev[|prev| - 1]];
      IdsJoinLast(front, prev[|prev| - 1], c);
    } else {
      IdsSnoc(prev, c);
    }
  }

  /** Coalescing keeps every id, each as often as before. */
  lemma {:induction false} CoalesceIds(recs: seq<Record>)
    requires Uniform(true, recs)
    ensures Ids(Coalesce(recs)) == Ids(recs)
    decreases |recs|
  {
    if recs != [] {
      var init := recs[..|recs| - 1];
      var c := recs[|recs| - 1];
      CoalesceIds(init);
      assert recs == init + [c];
      IdsSnoc(init, c);
      AbsorbIds(Coalesce(init), c);
    }
  }

  /** Two equal chunks standing for chunks of the input stand for them together. */
  lemma {:induction false} JoinedSound(l: Record, c: Record, ps: seq<Piece>)
    requires Sound(l, ps) && Sound(c, ps) && l.key == c.key && l.payload == c.payload
    ensures Sound(l.(ids := l.ids + c.ids), ps)
  {
    var e := l.(ids := l.ids + c.ids);
    assert forall k :: 0 <= k < |e.ids| ==> e.ids[k] == if k < |l.ids| then l.ids[k] else c.ids[k - |l.ids|];
  }

  /** The record after the last one kept, as the merge loop handles it:
      joined to it when equal, kept after it otherwise. Either way the
      records kept stay as sort keeps them. */
  lemma {:induction false} GoodStep(prev: seq<Record>, c: Record, before: Record, ps: seq<Piece>)
    requires Good(prev, ps) && Sound(c, ps) && Family(true, c) && Family(true, before)
    requires prev != [] ==> Same(prev[|prev| - 1], before) && Chunk.Compare(before, c) <= 0
    ensures Good(Absorb(prev, c), ps)
  {
    if prev != [] && Same(prev[|prev| - 1], c) {
      var l := prev[|prev| - 1];
      var l' := l.(ids := l.ids + c.ids);
      JoinedSound(l, c, ps);
      StrictReplaceLast(prev, l');
      var t := prev[..|prev| - 1] + [l'];
      assert forall n :: 0 <= n < |t| - 1 ==> t[n] == prev[n];
    } else {
      if prev != [] {
        Chunk.CompareZero(prev[|prev| - 1], c);
        SameKey(c, prev[|prev| - 1], before);
      }
      StrictSnoc(prev, c);
      var t := prev + [c];
      assert forall n :: 0 <= n < |prev| ==> t[n] == prev[n];
    }
  }

  /** A prefix of an ordered run of sound records is one too. */
  lemma {:induction false} OrderedPrefix(recs: seq<Record>, ps: seq<Piece>, k: int)
    requires Uniform(true, recs) && Sorted(Chunks, true, recs) && 0 <= k <= |recs|
    requires forall n :: 0 <= n < |recs| ==> Sound(recs[n], ps)
    ensures Uniform(true, recs[..k]) && Sorted(Chunks, true, recs[..k])
    ensures forall n :: 0 <= n < k ==> Sound(recs[..k][n], ps)
  {
    assert forall n :: 0 <= n < k ==> recs[..k][n] == recs[n];
  }

  /** Coalescing an ordered run of records that stand for chunks of the
      input gives records as sort keeps them: strictly ascending, no two
      equal, each still standing for chunks of the input. */
  lemma {:induction false} CoalesceGood(recs: seq<Record>, ps: seq<Piece>)
    requires Uniform(true, recs) && Sorted(Chunks, true, recs)
    requires forall n :: 0 <= n < |recs| ==> Sound(recs[n], ps)
    ensures Good(Coalesce(recs), ps)
    decreases |recs|
  {
    if recs != [] {
      var k := |recs| - 1;
      OrderedPrefix(recs, ps, k);
      CoalesceGood(recs[..k], ps);
      var before := if k > 0 then recs[k - 1] else recs[k];
      if k > 0 {
        assert Cmp(Chunks, true, recs[k - 1], recs[k]) <= 0;
      }
      GoodStep(Coalesce(recs[..k]), recs[k], before, ps);
      assert recs[..k] == recs[..|recs| - 1];
    }
  }

  lemma {:induction false} EncodeRecordsSnoc(recs: seq<Record>, r: Record, withKey: bool)
    ensures EncodeRecords(recs + [r], withKey) == EncodeRecords(recs, withKey) + EncodeRecord(r, withKey)
  {
    EncodeRecordsAppend(recs, [r], withKey);
    assert EncodeRecords([r], withKey) == EncodeRecord(r, withKey) + EncodeRecords([], withKey);
  }

  /** `last.compareTo(c) == 0` on keyed chunks. */
  method Duplicate(last: Record, c: Record) returns (dup: bool)
    requires Family(true, last) && Family(true, c)
    ensures dup <==> Same(last, c)
  {
    dup := Chunk.Compare(last, c) == 0;
    Chunk.CompareZero(last, c);
  }

  /** The record kept last stays at the end of the records kept before it. */
  lemma {:induction false} AbsorbShift(merged: seq<Record>, last: Record, c: Record)
    ensures Absorb(merged + [last], c) == merged + Absorb([last], c)
  {
    assert (merged + [last])[..|merged|] == merged;
  }

  /** One turn of the merge loop on the next record `c`: it joins `last`
      when `last.compareTo(c) == 0` (`last.idList.addAll(c.idList)`);
      otherwise `last` is written (`last.write(out, writeKey)`) and `c`
      becomes `last`. */
  method Turn(last: Record, c: Record, withKey: bool) returns (next: Record, written: seq<byte>, ghost out: seq<Record>)
    requires Family(true, last) && Family(true, c) && |last.payload| <= MAX_ARRAY && |c.payload| <= MAX_ARRAY
    ensures Absorb([last], c) == out + [next] && written == EncodeRecords(out, withKey)
    ensures Family(true, next) && |next.payload| <= MAX_ARRAY
  {
    var dup := Duplicate(last, c);
    if dup {
      next, written, out := last.(ids := last.ids + c.ids), [], [];
    } else {
      var w, _ := Chunk.Write(last, withKey);
      assert EncodeRecords([last], withKey) == EncodeRecord(last, withKey) + EncodeRecords([], withKey);
      next, written, out := c, w, [last];
    }
  }

  /** After a turn, the records written and `last` are the coalesced
      records so far. */
  lemma {:induction false} TurnKept(recs: seq<Record>, n: int, merged: seq<Record>, last: Record,
                                    out: seq<Record>, next: Record, withKey: bool)
    requires Uniform(true, recs) && 0 <= n < |recs|
    requires Coalesce(recs[..n]) == merged + [last] && Absorb([last], recs[n]) == out + [next]
    ensures Coalesce(recs[..n + 1]) == (merged + out) + [next]
    ensures EncodeRecords(merged + out, withKey) == EncodeRecords(merged, withKey) + EncodeRecords(out, withKey)
  {
    CoalesceNext(recs, n);
    AbsorbShift(merged, last, recs[n]);
    EncodeRecordsAppend(merged, out, withKey);
  }

  /** The loop over the merge iterator: `last` is the record kept so far,
      the first record the iterator gives (as `last == null` makes it);
      each later record takes a turn; after the loop `last` is written. */
  method WriteCoalesced(recs: seq<Record>, withKey: bool) returns (bytes: seq<byte>, count: int, ghost merged: seq<Record>)
    requires Uniform(true, recs) && forall n :: 0 <= n < |recs| ==> |recs[n].payload| <= MAX_ARRAY
    ensures merged == Coalesce(recs) && bytes == EncodeRecords(merged, withKey) && count == |bytes|
  {
    bytes, count, merged := [], 0, [];
    if recs == [] {
      return;
    }
    var last := recs[0];
    CoalesceFirst(recs);
    for n := 1 to |recs|
      invariant Coalesce(recs[..n]) == merged + [last]
      invariant Family(true, last) && |last.payload| <= MAX_ARRAY
      invariant bytes == EncodeRecords(merged, withKey) && count == |bytes|
    {
      var next, w, out := Turn(last, recs[n], withKey);
      TurnKept(recs, n, merged, last, out, next, withKey);
      bytes := bytes + w;
      count := count + |w|;
      merged := merged + out;
      last := next;
    }
    assert recs[..|recs|] == recs;
    var w, _ := Chunk.Write(last, withKey);
    EncodeRecordsSnoc(merged, last, withKey);
    bytes := bytes + w;
    count := count + |w|;
    merged := merged + [last];
  }

  // ---------------------------------------------------------------------
  // What the merge iterator gives
  // ---------------------------------------------------------------------

  /** Segments as sort keeps them are keyed and ascending. */
  lemma {:induction false} GoodSorted(segs: seq<seq<Record>>, ps: seq<Piece>)
    requires AllGood(segs, ps)
    ensures AllUniform(true, segs) && AllSorted(Chunks, true, segs)
  {
    forall g | 0 <= g < |segs|
      ensures Uniform(true, segs[g]) && Sorted(Chunks, true, segs[g])
    {
      assert Good(segs[g], ps);
    }
  }

  /** A record still to come from segments as sort keeps them stands for chunks. */
  lemma {:induction false} TotalSound(rs: seq<seq<Record>>, ps: seq<Piece>, x: Record)
    requires AllGood(rs, ps) && x in Total(rs)
    ensures Sound(x, ps)
    decreases |rs|
  {
    if x in multiset(rs[0]) {
      assert Good(rs[0], ps);
      var n :| 0 <= n < |rs[0]| && rs[0][n] == x;
    } else {
      assert AllGood(rs[1..], ps) by {
        assert forall g :: 0 <= g < |rs| - 1 ==> rs[1..][g] == rs[g + 1];
      }
      TotalSound(rs[1..], ps, x);
    }
  }

  lemma {:induction false} DrainedSound(out: seq<Record>, rs: seq<seq<Record>>, ps: seq<Piece>)
    requires AllGood(rs, ps) && multiset(out) == Total(rs)
    ensures forall n :: 0 <= n < |out| ==> Sound(out[n], ps)
  {
    forall n | 0 <= n < |out|
      ensures Sound(out[n], ps)
    {
      assert out[n] in multiset(out);
      TotalSound(rs, ps, out[n]);
    }
  }

  /** The records of the streams one after the other. */
  function Flat(rs: seq<seq<Record>>): (r: seq<Record>)
  {
    if rs == [] then [] else rs[0] + Flat(rs[1..])
  }

  lemma {:induction false} FlatCounts(rs: seq<seq<Record>>)
    ensures multiset(Flat(rs)) == Total(rs) && Ids(Flat(rs)) == AllIds(rs)
  {
    if rs != [] {
      FlatCounts(rs[1..]);
      IdsAppend(rs[0], Flat(rs[1..]));
    }
  }

  /** Records in another order carry the same ids. */
  lemma {:induction false} IdsPerm(a: seq<Record>, b: seq<Record>)
    requires multiset(a) == multiset(b)
    ensures Ids(a) == Ids(b)
    decreases |a|
  {
    if a == [] {
      assert |b| == |multiset(b)| == 0;
    } else {
      var x := a[0];
      assert x in multiset(b);
      var k :| 0 <= k < |b| && b[k] == x;
      var b' := b[..k] + b[k + 1..];
      assert b == b[..k] + ([x] + b[k + 1..]);
      assert multiset(b') == multiset(b) - multiset{x};
      assert a == [x] + a[1..];
      IdsPerm(a[1..], b');
      IdsAppend(b[..k], [x] + b[k + 1..]);
      IdsAppend([x], b[k + 1..]);
      IdsAppend(b[..k], b[k + 1..]);
      IdsSingle(x);
    }
  }

  /** A drain keeps every id of the streams, each as often. */
  lemma {:induction false} DrainedIds(out: seq<Record>, rs: seq<seq<Record>>)
    requires multiset(out) == Total(rs)
    ensures Ids(out) == AllIds(rs)
  {
    FlatCounts(rs);
    IdsPerm(out, Flat(rs));
  }

  /** The `while (it.hasNext())` loop of a merge: every record the
      iterator gives, coalesced and written. */
  method DrainCoalesced(it: MergeIterator, withKey: bool, ghost segs: seq<seq<Record>>, ghost ps: seq<Piece>)
    returns (bytes: seq<byte>, count: int, ghost merged: seq<Record>)
    requires it.Valid() && it.kind == Chunks && it.withKey && it.remaining == segs && AllGood(segs, ps)
    modifies it, it.streams
    ensures bytes == EncodeRecords(merged, withKey) && count == |bytes|
    ensures Good(merged, ps) && Ids(merged) == AllIds(segs)
  {
    GoodSorted(segs, ps);
    var drained := it.Drain();
    DrainedSound(drained, segs, ps);
    DrainedIds(drained, segs);
    bytes, count, merged := WriteCoalesced(drained, withKey);
    CoalesceGood(drained, ps);
    CoalesceIds(drained);
  }

  // ---------------------------------------------------------------------
  // openSegments
  // ---------------------------------------------------------------------

  /** Each offset starts a segment of the file that reads back, with keys, as `segs`. */
  ghost predicate Reads(file: seq<byte>, offsets: seq<nat>, segs: seq<seq<Record>>)
  {
    && |offsets| == |segs|
    && forall i :: 0 <= i < |offsets| ==>
         offsets[i] <= |file| && ParseSegment(file[offsets[i]..], true) == Ok(segs[i])
  }

  lemma {:induction false} StoredKeyed(recs: seq<Record>)
    ensures StoredAll(recs, true) == recs
  {
    if recs != [] {
      StoredKeyed(recs[1..]);
    }
  }

  /** A temporary file of segments as sort keeps them reads back at its offsets. */
  lemma {:induction false} LaidReads(file: seq<byte>, offsets: seq<nat>, segs: seq<seq<Record>>, ps: seq<Piece>)
    requires Laid(file, offsets, segs, true) && AllGood(segs, ps)
    ensures Reads(file, offsets, segs)
  {
    forall i | 0 <= i < |offsets|
      ensures offsets[i] <= |file| && ParseSegment(file[offsets[i]..], true) == Ok(segs[i])
    {
      LaidFrom(file, offsets, segs, i, true);
      assert Good(segs[i], ps);
      SegmentRoundTrip(segs[i], true, Layout(segs[i + 1..], true));
      StoredKeyed(segs[i]);
    }
  }

  /** The first `n` streams, and the others. */
  lemma {:induction false} ReadsSplit(file: seq<byte>, offsets: seq<nat>, segs: seq<seq<Record>>, ps: seq<Piece>, n: int)
    requires Reads(file, offsets, segs) && AllGood(segs, ps) && 0 <= n <= |offsets|
    ensures Reads(file, offsets[..n], segs[..n]) && Reads(file, offsets[n..], segs[n..])
    ensures AllGood(segs[..n], ps) && AllGood(segs[n..], ps)
  {
    assert forall i :: 0 <= i < n ==> offsets[..n][i] == offsets[i] && segs[..n][i] == segs[i];
    assert forall i :: 0 <= i < |offsets| - n ==> offsets[n..][i] == offsets[n + i] && segs[n..][i] == segs[n + i];
  }

  /** `bufferTotal / segmentStart.size()`: the division throws when there
      is no segment. */
  function StreamBuffer(count: nat): (r: Result<int>)
    ensures r.Err? <==> count == 0
    ensures r.Err? ==> r.error == DivisionByZero
    ensures r.Ok? ==> r.value * count <= STREAM_MEMORY < (r.value + 1) * count
  {
    if count == 0 then Err(DivisionByZero) else Ok(STREAM_MEMORY / count)
  }

  /** The loop of openSegments: stream i is the file skipped to `offsets[i]`
      (`new ChunkStream(i)`, `readKey = true`), loaded with its first record
      by `readNext()`; the set gets the streams that have one. */
  method OpenStreams(file: seq<byte>, offsets: seq<nat>, ghost segs: seq<seq<Record>>) returns (it: MergeIterator)
    requires |offsets| <= FAN_IN && Reads(file, offsets, segs)
    ensures fresh(it) && (forall j :: 0 <= j < |it.streams| ==> fresh(it.streams[j]))
    ensures it.Valid() && it.kind == Chunks && it.withKey && it.remaining == segs
  {
    var entries: set<Cursor> := {};
    ghost var streams: seq<Cursor> := [];
    for i := 0 to |offsets|
      invariant MergePasses.Indexed(file, offsets, Chunks, true, i, streams, entries)
      invariant forall j :: 0 <= j < i ==> fresh(streams[j])
    {
      var s := MergePasses.OpenEntry(i, Chunks, true, file[offsets[i]..]);
      MergePasses.IndexedStep(file, offsets, Chunks, true, i, streams, entries, s);
      if s.block.Some? {
        entries := entries + {s};
      }
      streams := streams + [s];
    }
    it := new MergeIterator(Chunks, true, entries, streams);
    assert forall j :: 0 <= j < |segs| ==> it.remaining[j] == segs[j];
  }

  /** openSegments(segmentStart, segmentIn, tempFileName, true): the share
      of the buffer memory each stream gets, then the streams. With no
      segment the share is a division by zero. */
  method OpenSegments(file: seq<byte>, offsets: seq<nat>, ghost segs: seq<seq<Record>>) returns (r: Result<MergeIterator>)
    requires |offsets| <= FAN_IN && Reads(file, offsets, segs)
    ensures r.Err? <==> offsets == []
    ensures r.Err? ==> r.error == DivisionByZero
    ensures r.Ok? ==>
              && fresh(r.value) && (forall j :: 0 <= j < |r.value.streams| ==> fresh(r.value.streams[j]))
              && r.value.Valid() && r.value.kind == Chunks && r.value.withKey && r.value.remaining == segs
  {
    var bufferPerStream := StreamBuffer(|offsets|);
    if bufferPerStream.Err? {
      return Err(bufferPerStream.error);
    }
    var it := OpenStreams(file, offsets, segs);
    return Ok(it);
  }

  // ---------------------------------------------------------------------
  // One merge level
  // ---------------------------------------------------------------------

  /** One run of segments merged (the body of `while (segmentStart.size() > 0)`):
      openSegments over the run, the coalesced records written with their
      keys, and the closing 0. */
  method MergeRun(file: seq<byte>, sub: seq<nat>, ghost segs: seq<seq<Record>>, ghost ps: seq<Piece>)
    returns (bytes: seq<byte>, count: int, ghost merged: seq<Record>)
    requires 0 < |sub| <= FAN_IN && Reads(file, sub, segs) && AllGood(segs, ps)
    ensures bytes == EncodeSegment(merged, true) && count == |bytes|
    ensures Good(merged, ps) && Ids(merged) == AllIds(segs)
  {
    var attempt := OpenSegments(file, sub, segs);
    if attempt.Err? {
      assert false;
    }
    var it := attempt.value;
    var body, n;
    body, n, merged := DrainCoalesced(it, true, segs, ps);
    var z, c := WriteVarLong(0);
    assert U64(0) == 0;
    bytes := body + z;
    count := n + c;
  }

  lemma {:induction false} AllIdsAppend(a: seq<seq<Record>>, b: seq<seq<Record>>)
    ensures AllIds(a + b) == AllIds(a) + AllIds(b)
  {
    if a == [] {
      assert a + b == b;
    } else {
      assert (a + b)[1..] == a[1..] + b;
      AllIdsAppend(a[1..], b);
    }
  }

  /** Each run merged into a segment carrying the run's ids: the level as
      a whole keeps every id. */
  lemma {:induction false} RunsIds(segs: seq<seq<Record>>, merged: seq<seq<Record>>)
    requires |merged| == |MergePasses.Runs(segs)|
    requires forall g :: 0 <= g < |merged| ==> Ids(merged[g]) == AllIds(MergePasses.Runs(segs)[g])
    ensures AllIds(merged) == AllIds(segs)
    decreases |segs|
  {
    if segs != [] {
      var n := if |segs| < FAN_IN then |segs| else FAN_IN;
      assert MergePasses.Runs(segs) == [segs[..n]] + MergePasses.Runs(segs[n..]);
      assert segs == segs[..n] + segs[n..];
      AllIdsAppend(segs[..n], segs[n..]);
      forall g | 0 <= g < |merged| - 1
        ensures Ids(merged[1..][g]) == AllIds(MergePasses.Runs(segs[n..])[g])
      {
        assert MergePasses.Runs(segs)[g + 1] == MergePasses.Runs(segs[n..])[g];
      }
      RunsIds(segs[n..], merged[1..]);
    }
  }

  /** Part way through a merge level: the runs `done` are merged, one
      segment each, into the new file; `current` and `rest` are the
      offsets and segments still to merge. */
  ghost predicate Leveling(file: seq<byte>, segs: seq<seq<Record>>, ps: seq<Piece>, current: seq<nat>, rest: seq<seq<Record>>,
                           file': seq<byte>, offsets': seq<nat>, segs': seq<seq<Record>>, done: seq<seq<seq<Record>>>)
  {
    && Reads(file, current, rest) && AllGood(rest, ps)
    && Laid(file', offsets', segs', true) && AllGood(segs', ps)
    && MergePasses.Runs(segs) == done + MergePasses.Runs(rest)
    && RunIds(segs', done)
  }

  lemma {:induction false} RunIdsSnoc(merged: seq<seq<Record>>, runs: seq<seq<seq<Record>>>, m: seq<Record>, run: seq<seq<Record>>)
    requires RunIds(merged, runs) && Ids(m) == AllIds(run)
    ensures RunIds(merged + [m], runs + [run])
  {
    assert forall g :: 0 <= g < |runs| ==> (merged + [m])[g] == merged[g] && (runs + [run])[g] == runs[g];
  }

  /** Each merged segment carries the ids of its run. */
  ghost predicate RunIds(merged: seq<seq<Record>>, runs: seq<seq<seq<Record>>>)
  {
    |merged| == |runs| && forall g :: 0 <= g < |runs| ==> Ids(merged[g]) == AllIds(runs[g])
  }

  /** The next run, merged, goes to the end of the new file. */
  lemma {:induction false} LevelStep(file: seq<byte>, segs: seq<seq<Record>>, ps: seq<Piece>, current: seq<nat>, rest: seq<seq<Record>>,
                                     file': seq<byte>, offsets': seq<nat>, segs': seq<seq<Record>>,
                                     done: seq<seq<seq<Record>>>, n: int, merged: seq<Record>)
    requires Leveling(file, segs, ps, current, rest, file', offsets', segs', done) && current != []
    requires n == if |current| < FAN_IN then |current| else FAN_IN
    requires Good(merged, ps) && Ids(merged) == AllIds(rest[..n])
    ensures Leveling(file, segs, ps, current[n..], rest[n..], file' + EncodeSegment(merged, true),
                     offsets' + [|file'|], segs' + [merged], done + [rest[..n]])
  {
    ReadsSplit(file, current, rest, ps, n);
    MergePasses.RunsStep(segs, done, rest, n);
    LaidSnoc(file', offsets', segs', merged, true);
    AllGoodSnoc(segs', merged, ps);
    RunIdsSnoc(segs', done, merged, rest[..n]);
  }

  lemma {:induction false} AllGoodSnoc(segs: seq<seq<Record>>, t: seq<Record>, ps: seq<Piece>)
    requires AllGood(segs, ps) && Good(t, ps)
    ensures AllGood(segs + [t], ps)
  {
    assert forall g :: 0 <= g < |segs| ==> (segs + [t])[g] == segs[g];
  }

  lemma {:induction false} LevelDone(file: seq<byte>, segs: seq<seq<Record>>, ps: seq<Piece>, current: seq<nat>, rest: seq<seq<Record>>,
                                     file': seq<byte>, offsets': seq<nat>, segs': seq<seq<Record>>, done: seq<seq<seq<Record>>>)
    requires Leveling(file, segs, ps, current, rest, file', offsets', segs', done) && current == []
    ensures |segs'| == (|segs| + FAN_IN - 1) / FAN_IN
    ensures AllIds(segs') == AllIds(segs)
  {
    assert done + [] == done;
    RunsIds(segs, segs');
  }

  /** One turn of `while (segmentStart.size() > 0)`: the offset of the
      new segment noted (`segmentStart2.add(outPos)`), the next run of at
      most 64 segments merged into it, and the run dropped from the offsets
      still to merge. */
  method MergeNext(file: seq<byte>, ghost segs: seq<seq<Record>>, ghost ps: seq<Piece>, current: seq<nat>, ghost rest: seq<seq<Record>>,
                   file': seq<byte>, offsets': seq<nat>, outPos: int, ghost segs': seq<seq<Record>>, ghost done: seq<seq<seq<Record>>>)
    returns (current2: seq<nat>, ghost rest2: seq<seq<Record>>, file2: seq<byte>, offsets2: seq<nat>, outPos2: int,
             ghost segs2: seq<seq<Record>>, ghost done2: seq<seq<seq<Record>>>)
    requires Leveling(file, segs, ps, current, rest, file', offsets', segs', done) && outPos == |file'| && current != []
    ensures Leveling(file, segs, ps, current2, rest2, file2, offsets2, segs2, done2) && outPos2 == |file2|
    ensures |current2| < |current|
  {
    var s := if |current| < FAN_IN then |current| else FAN_IN;
    ReadsSplit(file, current, rest, ps, s);
    var bytes, count, merged := MergeRun(file, current[..s], rest[..s], ps);
    LevelStep(file, segs, ps, current, rest, file', offsets', segs', done, s, merged);
    offsets2 := offsets' + [outPos];
    file2 := file' + bytes;
    outPos2 := outPos + count;
    segs2, done2 := segs' + [merged], done + [rest[..s]];
    current2, rest2 := current[s..], rest[s..];
  }

  /** One pass of `while (segmentStart.size() > blockSize)`: the segments,
      a run of 64 at a time (fewer for the last run), each merged into one
      segment of a new file, whose offsets replace the old ones. */
  method MergeLevel(file: seq<byte>, offsets: seq<nat>, ghost segs: seq<seq<Record>>, ghost ps: seq<Piece>)
    returns (file': seq<byte>, offsets': seq<nat>, ghost segs': seq<seq<Record>>)
    requires Laid(file, offsets, segs, true) && AllGood(segs, ps)
    ensures Laid(file', offsets', segs', true) && AllGood(segs', ps)
    ensures |offsets'| == (|offsets| + FAN_IN - 1) / FAN_IN
    ensures AllIds(segs') == AllIds(segs)
  {
    LaidReads(file, offsets, segs, ps);
    LaidEmpty(true);
    var outPos := 0;
    file', offsets', segs' := [], [], [];
    var current := offsets;
    ghost var rest := segs;
    ghost var done: seq<seq<seq<Record>>> := [];
    while current != []
      invariant Leveling(file, segs, ps, current, rest, file', offsets', segs', done) && outPos == |file'|
      decreases |current|
    {
      current, rest, file', offsets', outPos, segs', done :=
        MergeNext(file, segs, ps, current, rest, file', offsets', outPos, segs', done);
    }
    LevelDone(file, segs, ps, current, rest, file', offsets', segs', done);
  }

  /** `while (segmentStart.size() > blockSize)`: merge levels until at most
      64 segments remain, every id kept; with 64 or fewer nothing happens. */
  method MergeAll(file: seq<byte>, offsets: seq<nat>, ghost segs: seq<seq<Record>>, ghost ps: seq<Piece>)
    returns (file': seq<byte>, offsets': seq<nat>, ghost segs': seq<seq<Record>>)
    requires Laid(file, offsets, segs, true) && AllGood(segs, ps)
    ensures Laid(file', offsets', segs', true) && AllGood(segs', ps)
    ensures |offsets'| <= FAN_IN && AllIds(segs') == AllIds(segs)
    ensures |offsets| <= FAN_IN ==> file' == file && offsets' == offsets && segs' == segs
    ensures offsets' == [] <==> offsets == []
  {
    file', offsets', segs' := file, offsets, segs;
    while |offsets'| > FAN_IN
      invariant Laid(file', offsets', segs', true) && AllGood(segs', ps) && AllIds(segs') == AllIds(segs)
      invariant |offsets| <= FAN_IN ==> file' == file && offsets' == offsets && segs' == segs
      invariant offsets' == [] <==> offsets == []
      decreases |offsets'|
    {
      file', offsets', segs' := MergeLevel(file', offsets', segs', ps);
    }
  }

  // ---------------------------------------------------------------------
  // The final pass and sort
  // ---------------------------------------------------------------------

  /** The final merge: `dataOut.write(HEADER)`, `writeVarLong(dataOut, size)`,
      every coalesced record written without its key, and the closing 0. */
  method FinalWrite(it: MergeIterator, size: i64, ghost segs: seq<seq<Record>>, ghost ps: seq<Piece>)
    returns (out: seq<byte>, ghost final: seq<Record>)
    requires it.Valid() && it.kind == Chunks && it.withKey && it.remaining == segs && AllGood(segs, ps)
    modifies it, it.streams
    ensures out == Processor.MAGIC + Encode(U64(size)) + EncodeSegment(final, false)
    ensures Good(final, ps) && Ids(final) == AllIds(segs)
  {
    var header := Processor.MAGIC;
    var sizeBytes, _ := WriteVarLong(size);
    var body, _, merged := DrainCoalesced(it, false, segs, ps);
    var z, _ := WriteVarLong(0);
    assert U64(0) == 0;
    out := header + sizeBytes + body + z;
    final := merged;
  }

  /** Records each carrying an id carry none only when there are none. */
  lemma {:induction false} NoIds(recs: seq<Record>)
    requires Uniform(true, recs) && Ids(recs) == multiset{}
    ensures recs == []
  {
  }

  /** The archive's records carry the ids 1 .. |ps|: there are records
      exactly when there are chunks. */
  lemma {:induction false} FinalEmpty(final: seq<Record>, ps: seq<Piece>)
    requires |ps| <= LAST_ID && Good(final, ps) && Ids(final) == IdRange(1, |ps| + 1)
    ensures final == [] <==> ps == []
  {
    if ps == [] {
      NoIds(final);
    } else {
      IdRangeHas(1, |ps| + 1, 1);
    }
  }

  /** What sort does after the first pass, as written: the merge levels,
      openSegments over the segments left, which divides by zero when
      there are none, and the final merge. */
  method Finish(file: seq<byte>, offsets: seq<nat>, ghost segs: seq<seq<Record>>, ghost ps: seq<Piece>, size: i64)
    returns (r: Result<seq<byte>>, ghost final: seq<Record>)
    requires Laid(file, offsets, segs, true) && AllGood(segs, ps)
    ensures r.Err? <==> offsets == []
    ensures r.Err? ==> r.error == DivisionByZero && final == []
    ensures r.Ok? ==> r.value == Processor.MAGIC + Encode(U64(size)) + EncodeSegment(final, false)
    ensures Good(final, ps) && Ids(final) == AllIds(segs)
  {
    var file', offsets', segs' := MergeAll(file, offsets, segs, ps);
    LaidReads(file', offsets', segs', ps);
    var attempt := OpenSegments(file', offsets', segs');
    if attempt.Err? {
      return Err(attempt.error), [];
    }
    var out;
    out, final := FinalWrite(attempt.value, size, segs', ps);
    r := Ok(out);
  }

  /** The same with openSegments opening no stream for no segment. */
  method FinishGuarded(file: seq<byte>, offsets: seq<nat>, ghost segs: seq<seq<Record>>, ghost ps: seq<Piece>, size: i64)
    returns (out: seq<byte>, ghost final: seq<Record>)
    requires Laid(file, offsets, segs, true) && AllGood(segs, ps)
    ensures out == Processor.MAGIC + Encode(U64(size)) + EncodeSegment(final, false)
    ensures offsets == [] ==> out == Processor.MAGIC + Encode(U64(size)) + EncodeSegment([], false)
    ensures Good(final, ps) && Ids(final) == AllIds(segs)
  {
    var file', offsets', segs' := MergeAll(file, offsets, segs, ps);
    LaidReads(file', offsets', segs', ps);
    var it := OpenStreams(file', offsets', segs');
    out, final := FinalWrite(it, size, segs', ps);
    if offsets == [] {
      NoIds(final);
    }
  }

  /** sort(in, out, tempFileName, size) as written. Every chunk of the
      input is in the archive under its id, the records ascending and no
      two equal; but an empty input leaves no segment, and openSegments
      divides by zero before anything is written. */
  method Sort(input: seq<byte>, size: i64) returns (r: Result<seq<byte>>, ghost final: seq<Record>)
    requires |input| < LAST_ID
    ensures r.Err? <==> input == []
    ensures r.Err? ==> r.error == DivisionByZero
    ensures |Pieces(input)| <= |input|
    ensures r.Ok? ==> r.value == Processor.MAGIC + Encode(U64(size)) + EncodeSegment(final, false)
    ensures Good(final, Pieces(input)) && Ids(final) == IdRange(1, |Pieces(input)| + 1)
  {
    var file, offsets, segs, ps := FirstPass(input);
    r, final := Finish(file, offsets, segs, ps, size);
  }

  /** sort with openSegments guarded as DataProcessor.buildIndex guards its
      share: an empty input gives the archive with no record. */
  method SortGuarded(input: seq<byte>, size: i64) returns (out: seq<byte>, ghost final: seq<Record>)
    requires |input| < LAST_ID
    ensures |Pieces(input)| <= |input|
    ensures out == Processor.MAGIC + Encode(U64(size)) + EncodeSegment(final, false)
    ensures Good(final, Pieces(input)) && Ids(final) == IdRange(1, |Pieces(input)| + 1)
    ensures input == [] <==> final == []
    ensures input == [] ==> out == Processor.MAGIC + Encode(U64(size)) + EncodeSegment([], false)
  {
    var file, offsets, segs, ps := FirstPass(input);
    out, final := FinishGuarded(file, offsets, segs, ps, size);
    FinalEmpty(final, ps);
    PiecesEmpty(input);
  }

  lemma {:induction false} PiecesEmpty(input: seq<byte>)
    ensures Pieces(input) == [] <==> input == []
  {
    PiecesCover(input);
  }

  /** The ids lo .. hi - 1 are in their range. */
  lemma {:induction false} IdRangeHas(lo: int, hi: int, x: int)
    requires 1 <= lo <= x < hi <= LAST_ID + 1
    ensures x as i64 in IdRange(lo, hi)
    decreases hi - lo
  {
    if x < hi - 1 {
      IdRangeHas(lo, hi - 1, x);
    }
  }

  /** An id carried by a list of records is carried by one of them. */
  lemma {:induction false} IdsHas(recs: seq<Record>, x: i64) returns (n: int)
    requires x in Ids(recs)
    ensures 0 <= n < |recs| && x in recs[n].ids
  {
    if x in multiset(recs[0].ids) {
      n := 0;
    } else {
      var m := IdsHas(recs[1..], x);
      n := m + 1;
    }
  }

  /** The archive holds every chunk: chunk i (id i + 1) is carried by the
      record holding its key and bytes. That the unpacking side turns the
      archive back into the input is RoundTrip.PackUnpack. */
  lemma {:induction false} Recoverable(ps: seq<Piece>, final: seq<Record>, i: int) returns (n: int)
    requires |ps| <= LAST_ID && Good(final, ps) && Ids(final) == IdRange(1, |ps| + 1)
    requires 0 <= i < |ps|
    ensures 0 <= n < |final| && (i + 1) as i64 in final[n].ids
    ensures final[n].payload == ps[i].payload && final[n].key == Some(ps[i].key)
  {
    IdRangeHas(1, |ps| + 1, i + 1);
    n := IdsHas(final, (i + 1) as i64);
    assert Sound(final[n], ps);
    var k :| 0 <= k < |final[n].ids| && final[n].ids[k] == (i + 1) as i64;
  }
}
