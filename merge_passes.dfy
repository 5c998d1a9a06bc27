/** buildIndex and the passes of DataProcessor.copyAndProcess that read
    the temporary file back: while more than 64 segments remain, each run
    of 64 is merged into one segment of a new file; the final pass merges
    what is left and writes the payloads. Opening the file at an offset is
    taking its bytes from there on. */
module MergePasses {
  import opened Base
  import opened VarLong
  import opened RecordFormat
  import opened Merge
  import opened Processor

  // ---------------------------------------------------------------------
  // buildIndex
  // ---------------------------------------------------------------------

  /** `bufferSize`: the read-buffer memory shared evenly among the streams,
      4096 bytes each once the share rounds down to nothing. */
  function BufferSize(count: nat): (r: int)
    ensures r >= 1
    ensures 0 < count <= INDEX_MEMORY ==> r * count <= INDEX_MEMORY < (r + 1) * count
    ensures count > INDEX_MEMORY ==> r == 4096
  {
    var share := if count == 0 then INDEX_MEMORY else INDEX_MEMORY / count;
    if share == 0 then 4096 else share
  }

  /** Stream `j` of an index: a cursor of the given side whose records
      still to come are the segment read from `s`. */
  ghost predicate Opened(c: Cursor, j: int, kind: Kind, w: bool, s: seq<byte>)
    reads c
  {
    && c.id == j && c.kind == kind && c.withKey == w && c.Valid()
    && ParseSegment(s, w).Ok? && c.Pending() == ParseSegment(s, w).value
  }

  /** `new IndexEntry(i)` over a stream loaded with its first record
      (`entry.loadData()`), or `new ChunkStream(i)` with `readNext()`; the
      stream holds a well-formed segment. */
  method OpenEntry(i: StreamId, kind: Kind, w: bool, s: seq<byte>) returns (entry: Cursor)
    requires ParseSegment(s, w).Ok?
    ensures fresh(entry) && Opened(entry, i, kind, w, s)
  {
    entry := new Cursor(i, kind, w, s);
    var loaded := entry.LoadData();
    if loaded.Err? {
      assert false;
    }
  }

  /** buildIndex(filename, offsets, treeSet, false): stream i is the file
      skipped to `offsets[i]`, loaded with its first record; the set gets
      the cursors that have one. A skip that falls short is an
      EOFException; a stream skipped past the end would throw the same
      exception at its first read. */
  method BuildIndex(file: seq<byte>, offsets: seq<nat>) returns (r: Result<MergeIterator>)
    requires |offsets| <= 0x8000_0000
    requires forall i :: 0 <= i < |offsets| && offsets[i] <= |file| ==> ParseSegment(file[offsets[i]..], false).Ok?
    ensures r.Err? <==> exists i :: 0 <= i < |offsets| && offsets[i] > |file|
    ensures r.Err? ==> r.error == Eof
    ensures r.Ok? ==>
              && fresh(r.value) && (forall j :: 0 <= j < |r.value.streams| ==> fresh(r.value.streams[j]))
              && r.value.Valid() && r.value.kind == Blocks && !r.value.withKey
              && |r.value.remaining| == |offsets|
              && forall i :: 0 <= i < |offsets| ==> r.value.remaining[i] == ParseSegment(file[offsets[i]..], false).value
  {
    var bufferSize := BufferSize(|offsets|);
    var entries: set<Cursor> := {};
    ghost var streams: seq<Cursor> := [];
    for i := 0 to |offsets|
      invariant Indexed(file, offsets, Blocks, false, i, streams, entries)
      invariant forall j :: 0 <= j < i ==> fresh(streams[j])
    {
      if offsets[i] > |file| {
        return Err(Eof);
      }
      var entry := OpenEntry(i, Blocks, false, file[offsets[i]..]);
      IndexedStep(file, offsets, Blocks, false, i, streams, entries, entry);
      if entry.block.Some? {
        entries := entries + {entry};
      }
      streams := streams + [entry];
    }
    var it := new MergeIterator(Blocks, false, entries, streams);
    return Ok(it);
  }

  /** The first `i` streams of buildIndex (or openSegments) are open, each
      at its offset, and the set holds exactly those that have a record. */
  ghost predicate Indexed(file: seq<byte>, offsets: seq<nat>, kind: Kind, w: bool, i: int, streams: seq<Cursor>, entries: set<Cursor>)
    reads streams, entries
  {
    && |streams| == i <= |offsets|
    && (forall j :: 0 <= j < i ==> offsets[j] <= |file| && Opened(streams[j], j, kind, w, file[offsets[j]..]))
    && (forall c :: c in entries ==> c.id < i && streams[c.id] == c && c.block.Some?)
    && (forall j :: 0 <= j < i && streams[j].block.Some? ==> streams[j] in entries)
  }

  lemma {:induction false} IndexedStep(file: seq<byte>, offsets: seq<nat>, kind: Kind, w: bool, i: int, streams: seq<Cursor>,
                                       entries: set<Cursor>, entry: Cursor)
    requires Indexed(file, offsets, kind, w, i, streams, entries) && i < |offsets| && offsets[i] <= |file|
    requires Opened(entry, i, kind, w, file[offsets[i]..]) && entry !in streams
    ensures Indexed(file, offsets, kind, w, i + 1, streams + [entry], if entry.block.Some? then entries + {entry} else entries)
  {
    var streams' := streams + [entry];
    assert forall j :: 0 <= j < i ==> streams'[j] == streams[j];
  }

  // ---------------------------------------------------------------------
  // Merging one run of segments
  // ---------------------------------------------------------------------

  /** Each offset starts a well-formed segment of the file, and `segs` is
      what they read back: one-id records in DataBlock order. */
  ghost predicate Reads(file: seq<byte>, offsets: seq<nat>, segs: seq<seq<Record>>)
  {
    && |offsets| == |segs|
    && (forall i :: 0 <= i < |offsets| ==>
          offsets[i] <= |file| && ParseSegment(file[offsets[i]..], false) == Ok(segs[i]))
    && Plain(segs) && AllUniform(false, segs) && AllSorted(Blocks, false, segs)
  }

  /** A laid-out temporary file reads back at its offsets. */
  lemma {:induction false} HoldsReads(file: seq<byte>, offsets: seq<nat>, segs: seq<seq<Record>>)
    requires Holds(file, offsets, segs)
    ensures Reads(file, offsets, segs)
  {
    forall i | 0 <= i < |offsets|
      ensures offsets[i] <= |file| && ParseSegment(file[offsets[i]..], false) == Ok(segs[i])
    {
      PlainSegment(file, offsets, segs, i);
    }
  }

  /** The first `n` streams, and the others. */
  lemma {:induction false} ReadsSplit(file: seq<byte>, offsets: seq<nat>, segs: seq<seq<Record>>, n: int)
    requires Reads(file, offsets, segs) && 0 <= n <= |offsets|
    ensures Reads(file, offsets[..n], segs[..n]) && Reads(file, offsets[n..], segs[n..])
  {
    assert forall i :: 0 <= i < n ==> offsets[..n][i] == offsets[i] && segs[..n][i] == segs[i];
    assert forall i :: 0 <= i < |offsets| - n ==> offsets[n..][i] == offsets[n + i] && segs[n..][i] == segs[n + i];
  }

  /** A record still to come from one-id segments has one id. */
  lemma {:induction false} PlainTotal(rs: seq<seq<Record>>, x: Record)
    requires Plain(rs) && x in Total(rs)
    ensures Single(x)
  {
    if x in multiset(rs[0]) {
      assert Singles(rs[0]);
    } else {
      assert Plain(rs[1..]) by {
        assert forall g :: 0 <= g < |rs| - 1 ==> rs[1..][g] == rs[g + 1];
      }
      PlainTotal(rs[1..], x);
    }
  }

  /** Whatever is drained from one-id segments has one id per record. */
  lemma {:induction false} DrainedSingles(out: seq<Record>, rs: seq<seq<Record>>)
    requires Plain(rs) && multiset(out) == Total(rs)
    ensures Singles(out)
  {
    forall n | 0 <= n < |out|
      ensures Single(out[n])
    {
      assert out[n] in multiset(out);
      PlainTotal(rs, out[n]);
    }
  }

  /** One run of segments merged (the body of `while (!currentOffsets.isEmpty())`):
      buildIndex over the run's offsets, every block the iterator gives
      written as its first id and payload, and the closing 0. */
  method MergeGroup(file: seq<byte>, sub: seq<nat>, ghost segs: seq<seq<Record>>)
    returns (bytes: seq<byte>, count: int, ghost merged: seq<Record>)
    requires |sub| <= 0x8000_0000 && Reads(file, sub, segs)
    ensures bytes == EncodeSegment(merged, false) && count == |bytes|
    ensures Singles(merged) && Uniform(false, merged) && Sorted(Blocks, false, merged)
    ensures multiset(merged) == Total(segs)
  {
    var index := BuildIndex(file, sub);
    if index.Err? {
      assert false;
    }
    var it := index.value;
    assert it.remaining == segs;
    var blocks := it.Drain();
    DrainedSingles(blocks, segs);
    bytes, count := WriteSegment(blocks);
    FirstsOfSingles(blocks);
    merged := blocks;
  }

  // ---------------------------------------------------------------------
  // One merge level
  // ---------------------------------------------------------------------

  /** The runs one merge level takes: `Math.min(size, 64)` segments at a
      time, in order. */
  function Runs(segs: seq<seq<Record>>): (r: seq<seq<seq<Record>>>)
    ensures |r| == (|segs| + FAN_IN - 1) / FAN_IN
    ensures forall g :: 0 <= g < |r| ==> 1 <= |r[g]| <= FAN_IN
    decreases |segs|
  {
    if segs == [] then []
    else
      var n := if |segs| < FAN_IN then |segs| else FAN_IN;
      [segs[..n]] + Runs(segs[n..])
  }

  /** Each run merged into a segment holding the same records: the level
      as a whole keeps every record. */
  lemma {:induction false} RunsTotal(segs: seq<seq<Record>>, merged: seq<seq<Record>>)
    requires |merged| == |Runs(segs)|
    requires forall g :: 0 <= g < |merged| ==> multiset(merged[g]) == Total(Runs(segs)[g])
    ensures Total(merged) == Total(segs)
    decreases |segs|
  {
    if segs != [] {
      var n := if |segs| < FAN_IN then |segs| else FAN_IN;
      assert Runs(segs) == [segs[..n]] + Runs(segs[n..]);
      assert segs == segs[..n] + segs[n..];
      TotalAppend(segs[..n], segs[n..]);
      forall g | 0 <= g < |merged| - 1
        ensures multiset(merged[1..][g]) == Total(Runs(segs[n..])[g])
      {
        assert Runs(segs)[g + 1] == Runs(segs[n..])[g];
      }
      RunsTotal(segs[n..], merged[1..]);
    }
  }

  /** Taking the next run off the segments still to merge. */
  lemma {:induction false} RunsStep(segs: seq<seq<Record>>, done: seq<seq<seq<Record>>>, rest: seq<seq<Record>>, n: int)
    requires Runs(segs) == done + Runs(rest) && rest != []
    requires n == if |rest| < FAN_IN then |rest| else FAN_IN
    ensures Runs(segs) == (done + [rest[..n]]) + Runs(rest[n..])
  {
    assert Runs(rest) == [rest[..n]] + Runs(rest[n..]);
  }

  /** Part way through a merge level: the runs `done` are merged, one
      segment each, into the new file; `current` and `rest` are the
      offsets and segments still to merge. */
  ghost predicate Leveling(file: seq<byte>, segs: seq<seq<Record>>, current: seq<nat>, rest: seq<seq<Record>>,
                           file': seq<byte>, offsets': seq<nat>, segs': seq<seq<Record>>, done: seq<seq<seq<Record>>>)
  {
    && Reads(file, current, rest) && Holds(file', offsets', segs')
    && Runs(segs) == done + Runs(rest)
    && RunTotals(segs', done)
  }

  /** Each merged segment holds the records of its run. */
  ghost predicate RunTotals(merged: seq<seq<Record>>, runs: seq<seq<seq<Record>>>)
  {
    |merged| == |runs| && forall g :: 0 <= g < |runs| ==> multiset(merged[g]) == Total(runs[g])
  }

  lemma {:induction false} RunTotalsSnoc(merged: seq<seq<Record>>, runs: seq<seq<seq<Record>>>, m: seq<Record>, run: seq<seq<Record>>)
    requires RunTotals(merged, runs) && multiset(m) == Total(run)
    ensures RunTotals(merged + [m], runs + [run])
  {
    assert forall g :: 0 <= g < |runs| ==> (merged + [m])[g] == merged[g] && (runs + [run])[g] == runs[g];
  }

  /** The next run, merged, goes to the end of the new file. */
  lemma {:induction false} LevelStep(file: seq<byte>, segs: seq<seq<Record>>, current: seq<nat>, rest: seq<seq<Record>>,
                                     file': seq<byte>, offsets': seq<nat>, segs': seq<seq<Record>>,
                                     done: seq<seq<seq<Record>>>, n: int, merged: seq<Record>)
    requires Leveling(file, segs, current, rest, file', offsets', segs', done) && current != []
    requires n == if |current| < FAN_IN then |current| else FAN_IN
    requires Singles(merged) && Uniform(false, merged) && Sorted(Blocks, false, merged)
    requires multiset(merged) == Total(rest[..n])
    ensures Leveling(file, segs, current[n..], rest[n..], file' + EncodeSegment(merged, false),
                     offsets' + [|file'|], segs' + [merged], done + [rest[..n]])
  {
    ReadsSplit(file, current, rest, n);
    RunsStep(segs, done, rest, n);
    HoldsSnoc(file', offsets', segs', merged);
    RunTotalsSnoc(segs', done, merged, rest[..n]);
  }

  /** One turn of the inner loop: the offset of the new segment noted,
      the next run of at most 64 segments merged into it, and the run
      dropped from the offsets still to merge. */
  method MergeNext(file: seq<byte>, ghost segs: seq<seq<Record>>, current: seq<nat>, ghost rest: seq<seq<Record>>,
                   file': seq<byte>, offsets': seq<nat>, written: int, ghost segs': seq<seq<Record>>, ghost done: seq<seq<seq<Record>>>)
    returns (current2: seq<nat>, ghost rest2: seq<seq<Record>>, file2: seq<byte>, offsets2: seq<nat>, written2: int,
             ghost segs2: seq<seq<Record>>, ghost done2: seq<seq<seq<Record>>>)
    requires Leveling(file, segs, current, rest, file', offsets', segs', done) && written == |file'| && current != []
    ensures Leveling(file, segs, current2, rest2, file2, offsets2, segs2, done2) && written2 == |file2|
    ensures |current2| < |current|
  {
    var chunkSize := if |current| < FAN_IN then |current| else FAN_IN;
    ReadsSplit(file, current, rest, chunkSize);
    var bytes, count, merged := MergeGroup(file, current[..chunkSize], rest[..chunkSize]);
    LevelStep(file, segs, current, rest, file', offsets', segs', done, chunkSize, merged);
    offsets2 := offsets' + [written];
    file2 := file' + bytes;
    written2 := written + count;
    segs2, done2 := segs' + [merged], done + [rest[..chunkSize]];
    current2, rest2 := current[chunkSize..], rest[chunkSize..];
  }

  /** One pass of `while (offsetsList.size() > 64)`: the segments, a run
      of 64 at a time (fewer for the last run), each merged into one
      segment of a new file, whose offsets replace the old ones. */
  method MergeLevel(file: seq<byte>, offsets: seq<nat>, ghost segs: seq<seq<Record>>)
    returns (file': seq<byte>, offsets': seq<nat>, ghost segs': seq<seq<Record>>)
    requires Holds(file, offsets, segs)
    ensures Holds(file', offsets', segs')
    ensures |offsets'| == (|offsets| + FAN_IN - 1) / FAN_IN
    ensures |segs'| == |Runs(segs)|
    ensures forall g :: 0 <= g < |segs'| ==> multiset(segs'[g]) == Total(Runs(segs)[g])
  {
    HoldsReads(file, offsets, segs);
    LaidEmpty(false);
    var written := 0;
    file', offsets', segs' := [], [], [];
    var current := offsets;
    ghost var rest := segs;
    ghost var done: seq<seq<seq<Record>>> := [];
    while current != []
      invariant Leveling(file, segs, current, rest, file', offsets', segs', done) && written == |file'|
      decreases |current|
    {
      current, rest, file', offsets', written, segs', done :=
        MergeNext(file, segs, current, rest, file', offsets', written, segs', done);
    }
    LevelDone(file, segs, current, rest, file', offsets', segs', done);
  }

  lemma {:induction false} LevelDone(file: seq<byte>, segs: seq<seq<Record>>, current: seq<nat>, rest: seq<seq<Record>>,
                                     file': seq<byte>, offsets': seq<nat>, segs': seq<seq<Record>>, done: seq<seq<seq<Record>>>)
    requires Leveling(file, segs, current, rest, file', offsets', segs', done) && current == []
    ensures |segs'| == |Runs(segs)| && forall g :: 0 <= g < |segs'| ==> multiset(segs'[g]) == Total(Runs(segs)[g])
  {
    assert done + [] == done;
  }

  /** `while (offsetsList.size() > 64)`: merge levels until at most 64
      segments remain, every record kept. */
  method MergeAll(file: seq<byte>, offsets: seq<nat>, ghost segs: seq<seq<Record>>)
    returns (file': seq<byte>, offsets': seq<nat>, ghost segs': seq<seq<Record>>)
    requires Holds(file, offsets, segs)
    ensures Holds(file', offsets', segs') && |offsets'| <= FAN_IN && Total(segs') == Total(segs)
  {
    file', offsets', segs' := file, offsets, segs;
    while |offsets'| > FAN_IN
      invariant Holds(file', offsets', segs') && Total(segs') == Total(segs)
      decreases |offsets'|
    {
      ghost var before := segs';
      file', offsets', segs' := MergeLevel(file', offsets', segs');
      RunsTotal(before, segs');
    }
  }

  // ---------------------------------------------------------------------
  // The final pass
  // ---------------------------------------------------------------------

  /** The payloads of the blocks, one after the other. */
  function Payloads(blocks: seq<Record>): seq<byte>
  {
    if blocks == [] then [] else Payloads(blocks[..|blocks| - 1]) + blocks[|blocks| - 1].payload
  }

  /** The final pass: buildIndex over the remaining offsets and
      `out.write(block.payload)` for every block the iterator gives. */
  method FinalPass(file: seq<byte>, offsets: seq<nat>, ghost segs: seq<seq<Record>>)
    returns (out: seq<byte>, ghost blocks: seq<Record>)
    requires |offsets| <= FAN_IN && Reads(file, offsets, segs)
    ensures out == Payloads(blocks)
    ensures offsets == [] ==> out == []
    ensures Singles(blocks) && Uniform(false, blocks) && Sorted(Blocks, false, blocks)
    ensures multiset(blocks) == Total(segs)
  {
    var index := BuildIndex(file, offsets);
    if index.Err? {
      assert false;
    }
    var it := index.value;
    assert it.remaining == segs;
    var drained := it.Drain();
    DrainedSingles(drained, segs);
    out := [];
    for n := 0 to |drained|
      invariant out == Payloads(drained[..n])
    {
      assert drained[..n + 1][..n] == drained[..n];
      out := out + drained[n].payload;
    }
    assert drained[..|drained|] == drained;
    blocks := drained;
  }
}
