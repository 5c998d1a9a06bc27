/** DataProcessor.copyAndProcess and buildIndex: the three passes over the
    archive body. The first pass reads records into a TreeMap until their
    payload bytes reach 16777216 and writes the map as a segment of the
    temporary file; while more than 64 segments remain, each run of 64 is
    merged into one; the final pass merges the rest and writes the
    payloads. The archive, the temporary file and the output are byte
    strings; opening the temporary file at an offset is taking its bytes
    from there on. */
module Passes {
  import opened Base
  import opened VarLong
  import opened RecordFormat
  import DataBlock
  import opened Merge
  import opened Processor

  // ---------------------------------------------------------------------
  // Groups: the records that go into one segment
  // ---------------------------------------------------------------------

  /** `sumBytes += blockLen` over a run of records, in a Java int. */
  function RunSum(group: seq<Record>): i32
  {
    if group == [] then 0
    else ToI32(RunSum(group[..|group| - 1]) + |group[|group| - 1].payload|)
  }

  /** The inner loop went on reading after every proper prefix of the group:
      the sum was still below the limit. */
  predicate Open(group: seq<Record>)
  {
    forall k :: 0 <= k < |group| ==> RunSum(group[..k]) < LIMIT
  }

  /** The inner loop stopped because the sum reached the limit. */
  predicate Full(group: seq<Record>)
  {
    RunSum(group) >= LIMIT
  }

  /** The records of a run of groups, in order. */
  function Joined(groups: seq<seq<Record>>): (r: seq<Record>)
  {
    if groups == [] then [] else Joined(groups[..|groups| - 1]) + groups[|groups| - 1]
  }

  /** How the first pass splits the records it reads: into non-empty runs,
      each cut at the first record that brings the sum to the limit, the
      last one cut by the end of the input instead. */
  predicate Grouped(recs: seq<Record>, groups: seq<seq<Record>>)
  {
    && Joined(groups) == recs
    && forall g :: 0 <= g < |groups| ==>
         groups[g] != [] && Open(groups[g]) && (g < |groups| - 1 ==> Full(groups[g]))
  }

  /** Adding one more record to a group that was still open. */
  lemma {:induction false} OpenSnoc(group: seq<Record>, r: Record)
    requires Open(group) && RunSum(group) < LIMIT
    ensures Open(group + [r])
    ensures RunSum(group + [r]) == ToI32(RunSum(group) + |r.payload|)
  {
    var g := group + [r];
    assert g[..|group|] == group;
    forall k | 0 <= k < |g|
      ensures RunSum(g[..k]) < LIMIT
    {
      if k < |group| {
        assert g[..k] == group[..k];
      }
    }
  }

  lemma {:induction false} ExpandSnoc(group: seq<Record>, r: Record)
    ensures Expand(group + [r]) == Put(Expand(group), r.ids, r.payload)
  {
    assert (group + [r])[..|group|] == group;
  }

  /** Putting a record read from the archive keeps what the table holds storable. */
  lemma {:induction false} PutStocked(t: Table, r: Record)
    requires Stocked(t) && Storable(r, false)
    ensures Stocked(Put(t, r.ids, r.payload))
  {
    forall id | id in Put(t, r.ids, r.payload)
      ensures id != 0 && |Put(t, r.ids, r.payload)[id]| <= MAX_ARRAY
    {
      if id in r.ids {
        var i :| 0 <= i < |r.ids| && r.ids[i] == id;
      }
    }
  }

  /** The listing of a table is what WriteSegment takes, and it writes
      each record as it is. */
  lemma {:induction false} ListingWritable(t: Table)
    requires Stocked(t)
    ensures forall n :: 0 <= n < |Listing(t)| ==> |Listing(t)[n].ids| >= 1 && |Listing(t)[n].payload| <= MAX_ARRAY
    ensures Firsts(Listing(t)) == Listing(t)
  {
    ListingLists(t);
    FirstsOfSingles(Listing(t));
  }

  lemma {:induction false} AfterRecsNone(r: Result<seq<Record>>)
    ensures AfterRecs([], r) == r
  {
    if r.Ok? {
      assert [] + r.value == r.value;
    }
  }

  // ---------------------------------------------------------------------
  // The first pass
  // ---------------------------------------------------------------------

  /** What the inner loop leaves: the map, the bytes not read yet, and
      whether it met the end of the records. */
  datatype Fill = Fill(table: Table, rest: seq<byte>, reachedEnd: bool)

  /** The inner loop has read `group` off the front of `input`, leaving
      `rest`, with the map and the running sum to show for it. */
  ghost predicate Filling(input: seq<byte>, rest: seq<byte>, group: seq<Record>, table: Table, sum: int)
  {
    && |rest| <= |input| && (group != [] ==> |rest| < |input|)
    && ParseSegment(input, false) == AfterRecs(group, ParseSegment(rest, false))
    && table == Expand(group) && Stocked(table) && (table == map[] <==> group == [])
    && sum == RunSum(group) && Open(group)
  }

  /** A read error ends the records with that error, the end record ends
      them with the group. */
  lemma {:induction false} FillStop(input: seq<byte>, rest: seq<byte>, group: seq<Record>, table: Table, sum: int)
    requires Filling(input, rest, group, table, sum)
    ensures ParseRecord(rest, false).Err? ==> ParseSegment(input, false) == Err(ParseRecord(rest, false).error)
    ensures ParseRecord(rest, false).Ok? && ParseRecord(rest, false).value.End? ==> ParseSegment(input, false) == Ok(group)
  {
    SegmentUnfold(rest, false);
    assert group + [] == group;
  }

  /** A record read below the limit joins the group and goes into the map. */
  lemma {:induction false} FillStep(input: seq<byte>, rest: seq<byte>, group: seq<Record>, table: Table, sum: int)
    requires Filling(input, rest, group, table, sum) && sum < LIMIT
    requires ParseRecord(rest, false).Ok? && ParseRecord(rest, false).value.Item?
    ensures var p := ParseRecord(rest, false).value;
            Filling(input, rest[p.size..], group + [p.record], Put(table, p.record.ids, p.record.payload),
                    ToI32(sum + |p.record.payload|))
  {
    var p := ParseRecord(rest, false).value;
    var block := p.record;
    SegmentUnfold(rest, false);
    AfterRecsCompose(group, [block], ParseSegment(rest[p.size..], false));
    ParseRecordStorable(rest, false);
    PutStocked(table, block);
    ExpandSnoc(group, block);
    OpenSnoc(group, block);
    assert block.ids[0] in Put(table, block.ids, block.payload);
  }

  /** The inner `while (sumBytes < limit)` loop on a stream whose unread
      bytes are `input`: records go into the map, id by id, until the end
      record or until their payload bytes reach the limit. `group` is the
      records read. */
  method FillTable(input: seq<byte>) returns (r: Result<Fill>, ghost group: seq<Record>)
    ensures r.Err? ==> ParseSegment(input, false) == Err(r.error)
    ensures r.Ok? ==>
              && |r.value.rest| <= |input| && (group != [] ==> |r.value.rest| < |input|)
              && Open(group) && (r.value.reachedEnd <==> !Full(group))
              && r.value.table == Expand(group) && Stocked(r.value.table)
              && (r.value.table == map[] <==> group == [])
              && ParseSegment(input, false) ==
                 (if r.value.reachedEnd then Ok(group) else AfterRecs(group, ParseSegment(r.value.rest, false)))
  {
    var table: Table := map[];
    var sum: i32 := 0;
    var rest := input;
    group := [];
    AfterRecsNone(ParseSegment(rest, false));
    while sum < LIMIT
      invariant Filling(input, rest, group, table, sum)
      decreases |rest|
    {
      var d := DataBlock.ReadFrom(rest, false);
      FillStop(input, rest, group, table, sum);
      if d.Err? {
        return Err(d.error), group;
      }
      if d.value.End? {
        return Ok(Fill(table, rest[d.value.size..], true)), group;
      }
      rest, group, table, sum := Take(input, rest, group, table, sum, d.value);
    }
    return Ok(Fill(table, rest, false)), group;
  }

  /** The record read joins the group (`blocks.add`), its payload goes into
      the map under each of its ids, and the sum grows by its length. */
  method Take(ghost input: seq<byte>, rest: seq<byte>, ghost group: seq<Record>, table: Table, sum: i32, p: Parsed)
    returns (rest': seq<byte>, ghost group': seq<Record>, table': Table, sum': i32)
    requires Filling(input, rest, group, table, sum) && sum < LIMIT
    requires ParseRecord(rest, false) == Ok(p) && p.Item?
    ensures Filling(input, rest', group', table', sum') && |rest'| < |rest|
  {
    FillStep(input, rest, group, table, sum);
    var block := p.record;
    table' := PutAll(table, block.ids, block.payload);
    sum' := ToI32(sum + |block.payload|);
    group' := group + [block];
    rest' := rest[p.size..];
  }

  lemma {:induction false} JoinedSnoc(groups: seq<seq<Record>>, group: seq<Record>)
    ensures Joined(groups + [group]) == Joined(groups) + group
  {
    assert (groups + [group])[..|groups|] == groups;
  }

  /** Records with one id each, in strictly ascending id order, are in
      DataBlock order. */
  lemma {:induction false} AscendingSorted(recs: seq<Record>)
    requires Singles(recs) && Ascending(recs)
    ensures Uniform(false, recs) && Sorted(Blocks, false, recs)
  {
    assert Uniform(false, recs);
    forall m, n | 0 <= m < n < |recs|
      ensures Cmp(Blocks, false, recs[m], recs[n]) <= 0
    {
      assert recs[m].ids[0] < recs[n].ids[0];
    }
  }

  /** What the outer loop of the first pass has read: the records so far,
      split into groups as the inner loop cuts them, and the rest of the
      stream still to read unless the end was met. */
  ghost predicate ReadGroups(body: seq<byte>, rest: seq<byte>, done: bool, groups: seq<seq<Record>>)
  {
    && |rest| <= |body|
    && ParseSegment(body, false) ==
       (if done then Ok(Joined(groups)) else AfterRecs(Joined(groups), ParseSegment(rest, false)))
    && (forall g :: 0 <= g < |groups| ==>
          groups[g] != [] && Open(groups[g]) && (g < |groups| - 1 || !done ==> Full(groups[g])))
  }

  /** What it has written: one segment per group, the entries of the
      group's map in id order, laid out one after the other in the file. */
  ghost predicate WroteGroups(groups: seq<seq<Record>>, segs: seq<seq<Record>>, file: seq<byte>, offsets: seq<nat>)
  {
    && |segs| == |groups|
    && (forall g :: 0 <= g < |groups| ==> segs[g] == Listing(Expand(groups[g])))
    && Holds(file, offsets, segs)
  }

  lemma {:induction false} PassStart(body: seq<byte>)
    ensures ReadGroups(body, body, false, []) && WroteGroups([], [], [], [])
  {
    AfterRecsNone(ParseSegment(body, false));
    LaidEmpty(false);
  }

  /** A group that left nothing in the map ends the pass. */
  lemma {:induction false} ReadEmpty(body: seq<byte>, rest: seq<byte>, groups: seq<seq<Record>>)
    requires ReadGroups(body, rest, false, groups)
    requires ParseSegment(rest, false) == Ok([])
    ensures ReadGroups(body, rest, true, groups)
  {
    assert Joined(groups) + [] == Joined(groups);
  }

  /** A group read by the inner loop joins the groups. */
  lemma {:induction false} ReadStep(body: seq<byte>, rest: seq<byte>, groups: seq<seq<Record>>,
                                    group: seq<Record>, rest': seq<byte>, end: bool)
    requires ReadGroups(body, rest, false, groups)
    requires group != [] && Open(group) && (end <==> !Full(group)) && |rest'| < |rest|
    requires ParseSegment(rest, false) == (if end then Ok(group) else AfterRecs(group, ParseSegment(rest', false)))
    ensures ReadGroups(body, rest', end, groups + [group])
  {
    var groups' := groups + [group];
    JoinedSnoc(groups, group);
    if !end {
      AfterRecsCompose(Joined(groups), group, ParseSegment(rest', false));
    }
    forall g | 0 <= g < |groups'|
      ensures groups'[g] != [] && Open(groups'[g]) && (g < |groups'| - 1 || !end ==> Full(groups'[g]))
    {
      if g < |groups| {
        assert groups'[g] == groups[g];
      }
    }
  }

  /** Its segment goes to the end of the file. */
  lemma {:induction false} WriteStep(groups: seq<seq<Record>>, segs: seq<seq<Record>>, file: seq<byte>,
                                     offsets: seq<nat>, group: seq<Record>)
    requires WroteGroups(groups, segs, file, offsets) && Stocked(Expand(group))
    ensures WroteGroups(groups + [group], segs + [Listing(Expand(group))],
                        file + EncodeSegment(Listing(Expand(group)), false), offsets + [|file|])
  {
    var seg := Listing(Expand(group));
    var groups', segs' := groups + [group], segs + [seg];
    ListingLists(Expand(group));
    AscendingSorted(seg);
    HoldsSnoc(file, offsets, segs, seg);
    assert segs'[|segs|] == seg && groups'[|groups|] == group;
    assert forall g :: 0 <= g < |segs| ==> segs'[g] == segs[g] && groups'[g] == groups[g];
  }

  /** The temporary file after a pass: its bytes and where each segment starts. */
  datatype Temp = Temp(file: seq<byte>, offsets: seq<nat>)

  /** The first pass over the archive body: groups of records, cut as the
      inner loop cuts them, each written as one segment of the temporary
      file (`offsetsList.add(cumulativeBytes)`, one record per map entry,
      the closing 0), until a group meets the end of the records. A read
      error anywhere is the error of the whole pass. */
  method FirstPass(body: seq<byte>) returns (r: Result<Temp>, ghost groups: seq<seq<Record>>, ghost segs: seq<seq<Record>>)
    ensures r.Err? ==> ParseSegment(body, false) == Err(r.error)
    ensures r.Ok? ==>
              && ParseSegment(body, false).Ok? && Grouped(ParseSegment(body, false).value, groups)
              && |segs| == |groups| && (forall g :: 0 <= g < |groups| ==> segs[g] == Listing(Expand(groups[g])))
              && Holds(r.value.file, r.value.offsets, segs)
  {
    var file: seq<byte> := [];
    var offsets: seq<nat> := [];
    var cumulativeBytes := 0;
    var rest := body;
    var done := false;
    groups, segs := [], [];
    PassStart(body);
    while !done
      invariant ReadGroups(body, rest, done, groups) && WroteGroups(groups, segs, file, offsets)
      invariant cumulativeBytes == |file|
      decreases !done, |rest|
    {
      var f, group := FillTable(rest);
      if f.Err? {
        return Err(f.error), groups, segs;
      }
      var dataMap := f.value.table;
      if dataMap == map[] {
        ReadEmpty(body, rest, groups);
        done := true;
      } else {
        offsets := offsets + [cumulativeBytes];
        var entries := Entries(dataMap);
        ListingWritable(dataMap);
        var bytes, count := WriteSegment(entries);
        ReadStep(body, rest, groups, group, f.value.rest, f.value.reachedEnd);
        WriteStep(groups, segs, file, offsets[..|offsets| - 1], group);
        file := file + bytes;
        cumulativeBytes := cumulativeBytes + count;
        groups, segs := groups + [group], segs + [entries];
        rest := f.value.rest;
        done := f.value.reachedEnd;
      }
    }
    return Ok(Temp(file, offsets)), groups, segs;
  }
}
