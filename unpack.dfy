/** DataProcessor.copyAndProcess as a whole: the header, then the three
    passes, from the inflated archive to the bytes handed to the
    extractor. */
module Unpack {
  import opened Base
  import opened VarLong
  import opened RecordFormat
  import opened Merge
  import opened Processor
  import opened Passes
  import opened MergePasses

  /** The segments the first pass writes for a run of groups: the entries
      of each group's map, in id order. */
  function Segments(groups: seq<seq<Record>>): seq<seq<Record>>
  {
    seq(|groups|, g requires 0 <= g < |groups| => Listing(Expand(groups[g])))
  }

  /** copyAndProcess(in, out, tempPath): `readFully` of the four magic
      bytes (an EOFException when there are fewer), the magic check, the
      total size (read and ignored), the first pass, the merge levels and
      the final pass. The result is what goes to `out`. */
  method CopyAndProcess(input: seq<byte>) returns (r: Result<seq<byte>>, ghost groups: seq<seq<Record>>, ghost blocks: seq<Record>)
    ensures |input| < 4 ==> r == Err(Eof)
    ensures |input| >= 4 && input[..4] != MAGIC ==> r == Err(InvalidHeader)
    ensures |input| >= 4 && input[..4] == MAGIC && Decode(input[4..]).Err? ==> r == Err(Decode(input[4..]).error)
    ensures |input| >= 4 && input[..4] == MAGIC && Decode(input[4..]).Ok? ==>
              var recs := ParseSegment(input[4 + Decode(input[4..]).value.size..], false);
              && (recs.Err? ==> r == Err(recs.error))
              && (recs.Ok? ==>
                    && r.Ok? && Grouped(recs.value, groups)
                    && multiset(blocks) == Total(Segments(groups))
                    && Singles(blocks) && Uniform(false, blocks) && Sorted(Blocks, false, blocks)
                    && r.value == Payloads(blocks))
  {
    if |input| < 4 {
      return Err(Eof), [], [];
    }
    if input[..4] != MAGIC {
      return Err(InvalidHeader), [], [];
    }
    var totalSize := ProcessorReadVarLong(input[4..]);
    if totalSize.Err? {
      return Err(totalSize.error), [], [];
    }
    var body := input[4 + totalSize.value.size..];
    var temp;
    ghost var segs;
    temp, groups, segs := FirstPass(body);
    if temp.Err? {
      return Err(temp.error), groups, [];
    }
    assert segs == Segments(groups);
    var file, offsets;
    ghost var segs';
    file, offsets, segs' := MergeAll(temp.value.file, temp.value.offsets, segs);
    HoldsReads(file, offsets, segs');
    var out;
    out, blocks := FinalPass(file, offsets, segs');
    return Ok(out), groups, blocks;
  }
}
