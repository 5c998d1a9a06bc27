/** The first pass of DataTool.sort, the packing side of the archive. The
    input is read 32 MiB at a time; each buffer is cut into chunks by
    getKey, equal chunks of a buffer share one TreeMap entry listing their
    ids, and the entries go to a temporary file as a segment of keyed
    records. Ids number the chunks of the whole input from 1, in order.
    Streams are the bytes not read yet; files are byte strings. */
module Sorter {
  import opened Base
  import opened VarLong
  import opened RecordFormat
  import Chunk
  import opened Merge
  import opened Chunker

  /** `bufferSize`: the bytes sort reads at a time. */
  const BUFFER_SIZE: int := 33554432

  /** The largest long: ids count up from 1 and stay below it. */
  const LAST_ID: int := 0x7fff_ffff_ffff_ffff

  // ---------------------------------------------------------------------
  // readFully
  // ---------------------------------------------------------------------

  /** readFully(in, buffer, max): `in.read` until `min(max, buffer.length)`
      bytes are in or the stream ends; each read hands over any number of
      bytes from one to what was asked, or -1 at the end. The bytes read
      are the front of the stream, as many as asked for or as there are. */
  method ReadFully(stream: seq<byte>, bufferLength: nat, max: int) returns (read: seq<byte>, rest: seq<byte>, result: int)
    ensures stream == read + rest && result == |read|
    ensures var want := if max < bufferLength then max else bufferLength;
            result == if want <= 0 then 0 else if want < |stream| then want else |stream|
  {
    result := 0;
    var len := if max < bufferLength then max else bufferLength;
    ghost var want := len;
    read, rest := [], stream;
    while len > 0
      invariant stream == read + rest && result == |read|
      invariant want > 0 ==> 0 <= len && len + result == want
      invariant want <= 0 ==> len == want && result == 0
      decreases len
    {
      var l: int;
      if rest == [] {
        l := -1;
      } else {
        l :| 1 <= l <= len && l <= |rest|;
      }
      if l < 0 {
        break;
      }
      read, rest := read + rest[..l], rest[l..];
      result := result + l;
      len := len - l;
    }
  }

  // ---------------------------------------------------------------------
  // The chunks of the input
  // ---------------------------------------------------------------------

  /** How many bytes the next readFully of sort takes from the input. */
  function BufferLength(rest: seq<byte>): (n: int)
    ensures n <= |rest| && (rest != [] ==> 1 <= n <= BUFFER_SIZE)
  {
    if |rest| < BUFFER_SIZE then |rest| else BUFFER_SIZE
  }

  /** The chunks of the input in the order sort cuts them, buffer by
      buffer; chunk `i` (from 0) gets id `i + 1`. */
  ghost function Pieces(input: seq<byte>): seq<Piece>
    decreases |input|
  {
    if input == [] then []
    else
      var n := BufferLength(input);
      Chunking(input[..n]) + Pieces(input[n..])
  }

  lemma {:induction false} JoinedAppend(a: seq<Piece>, b: seq<Piece>)
    ensures Joined(a + b) == Joined(a) + Joined(b)
  {
    if a == [] {
      assert a + b == b;
    } else {
      assert (a + b)[1..] == a[1..] + b;
      JoinedAppend(a[1..], b);
    }
  }

  /** What sort needs of a chunk: a four-int key and a payload that fits
      a Java array. */
  predicate Sized(ps: seq<Piece>)
  {
    forall i :: 0 <= i < |ps| ==> |ps[i].key| == 4 && |ps[i].payload| <= MAX_ARRAY
  }

  lemma {:induction false} SizedAppend(a: seq<Piece>, b: seq<Piece>)
    requires Sized(a) && Sized(b)
    ensures Sized(a + b)
  {
    assert forall i :: |a| <= i < |a + b| ==> (a + b)[i] == b[i - |a|];
  }

  /** The chunks of the input cover it exactly, in order; there are no
      more of them than bytes, and none exactly when the input is empty. */
  lemma {:induction false} PiecesCover(input: seq<byte>)
    ensures Joined(Pieces(input)) == input
    ensures |Pieces(input)| <= |input|
    ensures Pieces(input) == [] <==> input == []
    ensures Sized(Pieces(input))
    decreases |input|
  {
    if input != [] {
      var n := BufferLength(input);
      var c := Chunking(input[..n]);
      ChunkingCovers(input[..n]);
      PiecesCover(input[n..]);
      JoinedAppend(c, Pieces(input[n..]));
      assert input == input[..n] + input[n..];
      assert c != [];
      assert Sized(c) by {
        forall i | 0 <= i < |c|
          ensures |c[i].key| == 4 && |c[i].payload| <= MAX_ARRAY
        {
          JoinedHolds(c, i);
        }
      }
      SizedAppend(c, Pieces(input[n..]));
    }
  }

  /** Every chunk's bytes are part of the joined bytes. */
  lemma {:induction false} JoinedHolds(ps: seq<Piece>, i: int)
    requires 0 <= i < |ps| && Shaped(ps)
    ensures |ps[i].key| == 4 && |ps[i].payload| <= |Joined(ps)|
  {
    if i > 0 {
      assert Shaped(ps[1..]) by {
        assert forall j :: 0 <= j < |ps| - 1 ==> ps[1..][j] == ps[j + 1];
      }
      JoinedHolds(ps[1..], i - 1);
    }
  }

  // ---------------------------------------------------------------------
  // The TreeMap<Chunk, Chunk> of one buffer
  // ---------------------------------------------------------------------

  /** Entries in TreeMap order: keyed chunks, each less than the next
      under Chunk.compareTo, so no two compare equal. */
  predicate Strict(t: seq<Record>)
  {
    Uniform(true, t) && forall m, n :: 0 <= m < n < |t| ==> Chunk.Compare(t[m], t[n]) < 0
  }

  /** A record stands for chunks of the input: each of its ids `i` names
      chunk `i - 1` of `ps`, whose key and bytes it carries, and it can be
      written with its key and read back. */
  predicate Sound(r: Record, ps: seq<Piece>)
  {
    && Storable(r, true)
    && forall k :: 0 <= k < |r.ids| ==>
         1 <= r.ids[k] <= |ps| && r.key == Some(ps[r.ids[k] - 1].key) && r.payload == ps[r.ids[k] - 1].payload
  }

  /** A run of records as sort keeps them: ascending, no two equal, each
      standing for chunks of `ps`. */
  predicate Good(t: seq<Record>, ps: seq<Piece>)
  {
    Strict(t) && forall n :: 0 <= n < |t| ==> Sound(t[n], ps)
  }

  /** The ids lo, lo + 1, ..., hi - 1. */
  function IdRange(lo: int, hi: int): multiset<i64>
    requires 1 <= lo <= hi <= LAST_ID + 1
    decreases hi - lo
  {
    if lo == hi then multiset{} else IdRange(lo, hi - 1) + multiset{(hi - 1) as i64}
  }

  /** A record standing for chunks still stands for them when more chunks follow. */
  lemma {:induction false} SoundGrow(r: Record, ps: seq<Piece>, more: seq<Piece>)
    requires Sound(r, ps)
    ensures Sound(r, ps + more)
  {
    forall k | 0 <= k < |r.ids|
      ensures (ps + more)[r.ids[k] - 1] == ps[r.ids[k] - 1]
    {
    }
  }

  /** TreeMap.get(c): the place of the entry comparing equal to `c`,
      looked for from place `i` on, or none. */
  function Find(t: seq<Record>, c: Record, i: int): (r: Option<nat>)
    requires Uniform(true, t) && Family(true, c) && 0 <= i <= |t|
    ensures r.Some? ==> i <= r.value < |t| && Chunk.Compare(c, t[r.value]) == 0
    ensures r.None? ==> forall n :: i <= n < |t| ==> Chunk.Compare(c, t[n]) != 0
    decreases |t| - i
  {
    if i == |t| then None
    else if Chunk.Compare(c, t[i]) == 0 then Some(i)
    else Find(t, c, i + 1)
  }

  /** Where TreeMap.put puts a chunk: after the entries it is greater
      than, looked for from place `i` on. */
  function Place(t: seq<Record>, c: Record, i: int): (k: int)
    requires Uniform(true, t) && Family(true, c) && 0 <= i <= |t|
    ensures i <= k <= |t|
    ensures forall n :: i <= n < k ==> Chunk.Compare(c, t[n]) > 0
    ensures k < |t| ==> Chunk.Compare(c, t[k]) <= 0
    decreases |t| - i
  {
    if i == |t| || Chunk.Compare(c, t[i]) <= 0 then i else Place(t, c, i + 1)
  }

  /** TreeMap.put(c, c) for a chunk no entry equals. */
  function Insert(t: seq<Record>, c: Record): (r: seq<Record>)
    requires Uniform(true, t) && Family(true, c)
  {
    var k := Place(t, c, 0);
    t[..k] + [c] + t[k..]
  }

  /** The new entry goes where the order keeps every entry less than the next. */
  lemma {:induction false} InsertStrict(t: seq<Record>, c: Record)
    requires Strict(t) && Family(true, c)
    requires forall n :: 0 <= n < |t| ==> Chunk.Compare(c, t[n]) != 0
    ensures Strict(Insert(t, c)) && |Insert(t, c)| == |t| + 1
  {
    var k := Place(t, c, 0);
    var r := Insert(t, c);
    InsertUniform(t, c, k, r);
    forall m, n | 0 <= m < n < |r|
      ensures Chunk.Compare(r[m], r[n]) < 0
    {
      InsertPair(t, c, k, r, m, n);
    }
  }

  lemma {:induction false} InsertUniform(t: seq<Record>, c: Record, k: int, r: seq<Record>)
    requires Uniform(true, t) && Family(true, c) && 0 <= k <= |t| && r == t[..k] + [c] + t[k..]
    ensures Uniform(true, r) && |r| == |t| + 1
  {
    forall n | 0 <= n < |r|
      ensures Family(true, r[n])
    {
      if n < k {
        assert r[n] == t[n];
      } else if n > k {
        assert r[n] == t[n - 1];
      }
    }
  }

  /** Two entries of the table after the insertion at `k`, in order. */
  lemma {:induction false} InsertPair(t: seq<Record>, c: Record, k: int, r: seq<Record>, m: int, n: int)
    requires Strict(t) && Family(true, c) && 0 <= k <= |t| && r == t[..k] + [c] + t[k..] && 0 <= m < n < |r|
    requires forall j :: 0 <= j < |t| ==> Chunk.Compare(c, t[j]) != 0
    requires forall j :: 0 <= j < k ==> Chunk.Compare(c, t[j]) > 0
    requires k < |t| ==> Chunk.Compare(c, t[k]) <= 0
    ensures Chunk.Comparable(r[m], r[n]) && Chunk.Compare(r[m], r[n]) < 0
  {
    if m < k && n < k {
      assert r[m] == t[m] && r[n] == t[n];
    } else if m < k && n == k {
      assert r[m] == t[m] && r[n] == c;
      Chunk.CompareAntisymmetric(c, t[m]);
    } else if m < k {
      assert r[m] == t[m] && r[n] == t[n - 1];
      assert Chunk.Compare(t[m], t[n - 1]) < 0;
    } else if m == k && n == k + 1 {
      assert r[m] == c && r[n] == t[k];
      assert Chunk.Compare(c, t[k]) != 0;
    } else if m == k {
      assert r[m] == c && r[n] == t[n - 1];
      assert Chunk.Compare(t[k], t[n - 1]) < 0;
      Chunk.CompareTransitive(c, t[k], t[n - 1]);
    } else {
      assert r[m] == t[m - 1] && r[n] == t[n - 1];
      assert Chunk.Compare(t[m - 1], t[n - 1]) < 0;
    }
  }

  lemma {:induction false} IdsSingle(r: Record)
    ensures Ids([r]) == multiset(r.ids)
  {
    assert [r][1..] == [];
  }

  /** Records standing for chunks still stand for them when more follow. */
  lemma {:induction false} GoodGrow(t: seq<Record>, ps: seq<Piece>, more: seq<Piece>)
    requires Good(t, ps)
    ensures Good(t, ps + more)
  {
    forall n | 0 <= n < |t|
      ensures Sound(t[n], ps + more)
    {
      SoundGrow(t[n], ps, more);
    }
  }

  /** The record a new chunk starts: its id names it. */
  lemma {:induction false} FreshSound(ps: seq<Piece>, p: Piece)
    requires |ps| + 1 <= LAST_ID && |p.key| == 4 && |p.payload| <= MAX_ARRAY
    ensures Sound(Record([(|ps| + 1) as i64], Some(p.key), p.payload), ps + [p])
  {
  }

  /** Inserting a record keeps every record standing for chunks. */
  lemma {:induction false} InsertGood(t: seq<Record>, ps: seq<Piece>, c: Record)
    requires Good(t, ps) && Family(true, c) && Sound(c, ps)
    requires forall n :: 0 <= n < |t| ==> Chunk.Compare(c, t[n]) != 0
    ensures Good(Insert(t, c), ps) && |Insert(t, c)| == |t| + 1
  {
    var k := Place(t, c, 0);
    var r := Insert(t, c);
    InsertStrict(t, c);
    forall n | 0 <= n < |r|
      ensures Sound(r[n], ps)
    {
      if n < k {
        assert r[n] == t[n];
      } else if n > k {
        assert r[n] == t[n - 1];
      }
    }
  }

  /** ... and adds the ids of the inserted record. */
  lemma {:induction false} InsertIds(t: seq<Record>, c: Record)
    requires Uniform(true, t) && Family(true, c)
    ensures Ids(Insert(t, c)) == Ids(t) + multiset(c.ids)
  {
    var k := Place(t, c, 0);
    assert t == t[..k] + t[k..];
    IdsAppend(t[..k], t[k..]);
    IdsAppend(t[..k] + [c], t[k..]);
    IdsAppend(t[..k], [c]);
    IdsSingle(c);
  }

  /** The table after the chunks `ps`, of which those from id `lo` on
      were in this buffer: entries as sort keeps them, holding exactly
      those ids; `id` is the next id. */
  ghost predicate Tabled(t: seq<Record>, ps: seq<Piece>, lo: int, id: int)
  {
    && 1 <= lo <= id == |ps| + 1 <= LAST_ID
    && Good(t, ps) && Ids(t) == IdRange(lo, id)
  }

  /** A chunk no entry equals starts an entry of its own with its id. */
  lemma {:induction false} NewEntry(t: seq<Record>, ps: seq<Piece>, lo: int, id: i64, p: Piece, c: Record)
    requires Tabled(t, ps, lo, id as int) && id as int < LAST_ID
    requires |p.key| == 4 && |p.payload| <= MAX_ARRAY && c == Record([id], Some(p.key), p.payload)
    requires forall n :: 0 <= n < |t| ==> Chunk.Compare(c, t[n]) != 0
    ensures Tabled(Insert(t, c), ps + [p], lo, id as int + 1)
  {
    GoodGrow(t, ps, [p]);
    FreshSound(ps, p);
    InsertGood(t, ps + [p], c);
    InsertIds(t, c);
  }

  /** Adding an id to the list of record `k`. */
  lemma {:induction false} IdsAdd(t: seq<Record>, k: int, x: i64)
    requires 0 <= k < |t|
    ensures Ids(t[k := t[k].(ids := t[k].ids + [x])]) == Ids(t) + multiset{x}
    decreases |t|
  {
    var t' := t[k := t[k].(ids := t[k].ids + [x])];
    if k == 0 {
      assert t'[1..] == t[1..];
      assert multiset(t[0].ids + [x]) == multiset(t[0].ids) + multiset{x};
    } else {
      IdsAdd(t[1..], k - 1, x);
      assert t'[1..] == t[1..][k - 1 := t[k].(ids := t[k].ids + [x])];
    }
  }

  /** The order of keyed records does not look at their ids. */
  lemma {:induction false} AddIdStrict(t: seq<Record>, k: int, x: i64)
    requires Strict(t) && 0 <= k < |t|
    ensures Strict(t[k := t[k].(ids := t[k].ids + [x])])
  {
    var r := t[k := t[k].(ids := t[k].ids + [x])];
    forall m, n | 0 <= m < n < |r|
      ensures Chunk.Compare(r[m], r[n]) < 0
    {
      assert Chunk.Compare(r[m], r[n]) == Chunk.Compare(t[m], t[n]);
    }
  }

  /** A record equal to the next chunk stands for it too. */
  lemma {:induction false} AddIdSound(r: Record, ps: seq<Piece>, p: Piece)
    requires Sound(r, ps) && |ps| + 1 <= LAST_ID && r.key == Some(p.key) && r.payload == p.payload
    ensures Sound(r.(ids := r.ids + [(|ps| + 1) as i64]), ps + [p])
  {
    SoundGrow(r, ps, [p]);
    var e := r.(ids := r.ids + [(|ps| + 1) as i64]);
    assert forall j :: 0 <= j < |r.ids| ==> e.ids[j] == r.ids[j];
  }

  /** `old.idList.add(id)`: a chunk equal to entry `k` only adds its id there. */
  lemma {:induction false} AddId(t: seq<Record>, ps: seq<Piece>, lo: int, id: i64, p: Piece, k: int)
    requires Tabled(t, ps, lo, id as int) && id as int < LAST_ID
    requires 0 <= k < |t| && t[k].key == Some(p.key) && t[k].payload == p.payload
    ensures Tabled(t[k := t[k].(ids := t[k].ids + [id])], ps + [p], lo, id as int + 1)
  {
    var r := t[k := t[k].(ids := t[k].ids + [id])];
    AddIdStrict(t, k, id);
    GoodGrow(t, ps, [p]);
    AddIdSound(t[k], ps, p);
    assert forall n :: 0 <= n < |r| && n != k ==> r[n] == t[n];
    IdsAdd(t, k, id);
  }

  /** `cut` are the pieces of `bytes` before `pos`. */
  ghost predicate Cut(bytes: seq<byte>, pos: int, cut: seq<Piece>)
    requires |bytes| <= MAX_ARRAY && 0 <= pos <= |bytes|
  {
    Chunking(bytes) == cut + ChunksFrom(bytes, pos)
  }

  /** `getKey(buff, pos, len)` as the chunk loop sees it: the key of the
      next piece of the buffer's chunking. */
  method NextKey(bytes: seq<byte>, pos: int, ghost cut: seq<Piece>) returns (key: seq<i32>, next: int, ghost cut': seq<Piece>)
    requires |bytes| <= MAX_ARRAY && 0 <= pos < |bytes|
    requires Cut(bytes, pos, cut)
    ensures |key| == 4 && next == pos + key[3] as int && pos < next <= |bytes|
    ensures cut' == cut + [Piece(key, bytes[pos..next])] && Cut(bytes, next, cut')
  {
    key := GetKey(bytes, pos, |bytes|);
    CutStep(bytes, pos, cut, key);
    next := pos + key[3] as int;
    cut' := cut + [Piece(key, bytes[pos..next])];
  }

  lemma Regroup(all: seq<Piece>, cut: seq<Piece>, p: Piece, rest: seq<Piece>, after: seq<Piece>)
    requires all == cut + rest && rest == [p] + after
    ensures all == (cut + [p]) + after
  {
  }

  lemma {:induction false} CutStep(bytes: seq<byte>, pos: int, cut: seq<Piece>, key: seq<i32>)
    requires |bytes| <= MAX_ARRAY && 0 <= pos < |bytes|
    requires Cut(bytes, pos, cut) && key == KeyOf(bytes[pos..|bytes|])
    ensures |key| == 4 && 1 <= key[3] as int <= |bytes| - pos
    ensures Cut(bytes, pos + key[3] as int, cut + [Piece(key, bytes[pos..pos + key[3] as int])])
  {
    var p, next := NextChunk(bytes, pos);
    Regroup(Chunking(bytes), cut, p, ChunksFrom(bytes, pos), ChunksFrom(bytes, next));
  }

  /** At the end of the buffer the chunks cut are all of its chunks. */
  lemma {:induction false} CutDone(bytes: seq<byte>, cut: seq<Piece>)
    requires |bytes| <= MAX_ARRAY && Cut(bytes, |bytes|, cut)
    ensures cut == Chunking(bytes)
  {
    assert Starts(bytes, |bytes|) == [];
    assert cut + ChunksFrom(bytes, |bytes|) == cut;
  }

  /** One chunk into the table: TreeMap.get looks for an entry equal to
      the chunk with id `id`; the id joins it, or the chunk becomes a new
      entry. */
  method Enter(t: seq<Record>, id: i64, key: seq<i32>, payload: seq<byte>, ghost ps: seq<Piece>, ghost lo: int)
    returns (r: seq<Record>)
    requires Tabled(t, ps, lo, id as int) && id as int < LAST_ID
    requires |key| == 4 && |payload| <= MAX_ARRAY
    ensures Tabled(r, ps + [Piece(key, payload)], lo, id as int + 1)
  {
    var c := Record([id], Some(key), payload);
    var found := Find(t, c, 0);
    if found.None? {
      NewEntry(t, ps, lo, id, Piece(key, payload), c);
      r := Insert(t, c);
    } else {
      var k := found.value;
      Chunk.CompareZero(c, t[k]);
      AddId(t, ps, lo, id, Piece(key, payload), k);
      r := t[k := t[k].(ids := t[k].ids + [id])];
    }
  }

  lemma Regroup1(done: seq<Piece>, cut: seq<Piece>, p: Piece)
    ensures (done + cut) + [p] == done + (cut + [p])
  {
  }

  /** The chunk loop of sort over one buffer's valid bytes: getKey cuts
      the next chunk, TreeMap.get looks for an equal one; the id joins
      that entry, or a new entry starts with it; the next chunk gets the
      next id. The table ends up holding the buffer's chunks, each
      distinct chunk once, with the ids of all its occurrences. */
  method FillTable(bytes: seq<byte>, id0: i64, ghost done: seq<Piece>) returns (table: seq<Record>, id: i64)
    requires |bytes| <= MAX_ARRAY && id0 as int == |done| + 1 && |done| + 1 + |bytes| <= LAST_ID
    ensures Tabled(table, done + Chunking(bytes), id0 as int, id as int)
  {
    table := [];
    id := id0;
    var pos := 0;
    ghost var cut: seq<Piece> := [];
    ghost var seen := done;
    while pos < |bytes|
      invariant 0 <= pos <= |bytes|
      invariant Cut(bytes, pos, cut)
      invariant seen == done + cut && |cut| <= pos
      invariant Tabled(table, seen, id0 as int, id as int)
      decreases |bytes| - pos
    {
      var key, next, cut' := NextKey(bytes, pos, cut);
      table := Enter(table, id, key, bytes[pos..next], seen, id0 as int);
      Regroup1(done, cut, Piece(key, bytes[pos..next]));
      pos, cut, seen, id := next, cut', seen + [Piece(key, bytes[pos..next])], id + 1;
    }
    CutDone(bytes, cut);
  }

  // ---------------------------------------------------------------------
  // Writing a segment
  // ---------------------------------------------------------------------

  /** `outPos += c.write(out, writeKey)` for every record, then the
      closing `writeVarLong(out, 0)`; the count is the bytes written. */
  method WriteChunks(recs: seq<Record>, withKey: bool) returns (bytes: seq<byte>, count: int)
    requires forall n :: 0 <= n < |recs| ==> Storable(recs[n], true)
    ensures bytes == EncodeSegment(recs, withKey) && count == |bytes|
  {
    bytes := [];
    count := 0;
    for n := 0 to |recs|
      invariant bytes == EncodeRecords(recs[..n], withKey) && count == |bytes|
    {
      var w, _ := Chunk.Write(recs[n], withKey);
      assert recs[..n + 1] == recs[..n] + [recs[n]];
      EncodeRecordsAppend(recs[..n], [recs[n]], withKey);
      assert EncodeRecords([recs[n]], withKey) == w;
      bytes := bytes + w;
      count := count + |w|;
    }
    assert recs[..|recs|] == recs;
    var z, c := WriteVarLong(0);
    assert U64(0) == 0;
    bytes := bytes + z;
    count := count + c;
  }

  // ---------------------------------------------------------------------
  // The first pass: one segment per buffer
  // ---------------------------------------------------------------------

  /** Consecutive id ranges join. */
  lemma {:induction false} IdRangeJoin(lo: int, mid: int, hi: int)
    requires 1 <= lo <= mid <= hi <= LAST_ID + 1
    ensures IdRange(lo, mid) + IdRange(mid, hi) == IdRange(lo, hi)
    decreases hi - mid
  {
    if mid < hi {
      IdRangeJoin(lo, mid, hi - 1);
    }
  }

  lemma {:induction false} AllIdsSnoc(rs: seq<seq<Record>>, t: seq<Record>)
    ensures AllIds(rs + [t]) == AllIds(rs) + Ids(t)
  {
    if rs == [] {
      assert [t][1..] == [];
    } else {
      assert (rs + [t])[1..] == rs[1..] + [t];
      AllIdsSnoc(rs[1..], t);
    }
  }

  /** The next buffer's chunks come first among the chunks of what is left. */
  lemma {:induction false} PiecesStep(rest: seq<byte>, read: seq<byte>, rest': seq<byte>)
    requires rest == read + rest' && |read| == BufferLength(rest) && rest != []
    ensures Pieces(rest) == Chunking(read) + Pieces(rest')
  {
    assert read == rest[..BufferLength(rest)] && rest' == rest[BufferLength(rest)..];
  }

  /** Every segment's records stand for chunks of `ps`, as sort keeps them. */
  ghost predicate AllGood(segs: seq<seq<Record>>, ps: seq<Piece>)
  {
    forall g :: 0 <= g < |segs| ==> Good(segs[g], ps)
  }

  /** Part way through the first pass: `rest` is the input still unread;
      `done` are the chunks of what was read, and the temporary file holds
      one segment per buffer, whose records stand for those chunks and
      carry each of their ids once. */
  ghost predicate FirstPassed(input: seq<byte>, rest: seq<byte>, done: seq<Piece>,
                              file: seq<byte>, offsets: seq<nat>, segs: seq<seq<Record>>)
  {
    && Pieces(input) == done + Pieces(rest)
    && |done| + |rest| <= |input| < LAST_ID
    && Laid(file, offsets, segs, true)
    && AllGood(segs, done)
    && AllIds(segs) == IdRange(1, |done| + 1)
    && (segs == [] <==> |rest| == |input|)
  }

  /** One buffer read, its table filled and written as the next segment;
      `more` are the buffer's chunks. */
  lemma {:induction false} FirstStep(input: seq<byte>, rest: seq<byte>, done: seq<Piece>, done': seq<Piece>,
                                     file: seq<byte>, offsets: seq<nat>, segs: seq<seq<Record>>,
                                     read: seq<byte>, rest': seq<byte>, more: seq<Piece>, table: seq<Record>, id: int)
    requires FirstPassed(input, rest, done, file, offsets, segs)
    requires rest == read + rest' && read != [] && Pieces(rest) == more + Pieces(rest') && |more| <= |read|
    requires done' == done + more && Tabled(table, done', |done| + 1, id)
    ensures FirstPassed(input, rest', done', file + EncodeSegment(table, true), offsets + [|file|], segs + [table])
  {
    PiecesRegroup(input, done, more, Pieces(rest), Pieces(rest'));
    LaidSnoc(file, offsets, segs, table, true);
    GoodSnoc(segs, table, done, more);
    IdsSnoc(segs, table, |done| + 1, id, |done'|);
  }

  /** A buffer has no more chunks than bytes. */
  lemma {:induction false} ChunkCount(read: seq<byte>)
    requires |read| <= MAX_ARRAY
    ensures |Chunking(read)| <= |read|
  {
    ChunkingCovers(read);
  }

  lemma PiecesRegroup(input: seq<byte>, done: seq<Piece>, more: seq<Piece>, rest: seq<Piece>, rest': seq<Piece>)
    requires Pieces(input) == done + rest && rest == more + rest'
    ensures Pieces(input) == (done + more) + rest'
  {
  }

  /** Earlier segments keep standing for the chunks read so far. */
  lemma {:induction false} GoodSnoc(segs: seq<seq<Record>>, table: seq<Record>, done: seq<Piece>, more: seq<Piece>)
    requires AllGood(segs, done) && Good(table, done + more)
    ensures AllGood(segs + [table], done + more)
  {
    forall g | 0 <= g < |segs + [table]|
      ensures Good((segs + [table])[g], done + more)
    {
      if g < |segs| {
        GoodGrow(segs[g], done, more);
      }
    }
  }

  /** The new segment carries the ids after those already written. */
  lemma {:induction false} IdsSnoc(segs: seq<seq<Record>>, table: seq<Record>, mid: int, id: int, n: int)
    requires 1 <= mid <= id <= LAST_ID && id == n + 1
    requires AllIds(segs) == IdRange(1, mid) && Ids(table) == IdRange(mid, id)
    ensures AllIds(segs + [table]) == IdRange(1, n + 1)
  {
    AllIdsSnoc(segs, table);
    IdRangeJoin(1, mid, id);
  }

  /** The first loop of sort: `readFully` a buffer at a time until it
      gives nothing; each buffer's table is written as one segment of the
      temporary file, `outPos` recording where it starts. The segments
      stand for the chunks `ps` of the input, and carry ids 1 to |ps|,
      each once. */
  method FirstPass(input: seq<byte>) returns (file: seq<byte>, offsets: seq<nat>, ghost segs: seq<seq<Record>>,
                                              ghost ps: seq<Piece>)
    requires |input| < LAST_ID
    ensures ps == Pieces(input) && |ps| <= |input|
    ensures Laid(file, offsets, segs, true) && AllGood(segs, ps)
    ensures AllIds(segs) == IdRange(1, |ps| + 1)
    ensures segs == [] <==> input == []
    ensures offsets == [] <==> input == []
  {
    var outPos := 0;
    var id: i64 := 1;
    var rest := input;
    ps := [];
    file, offsets, segs := [], [], [];
    LaidEmpty(true);
    while true
      invariant FirstPassed(input, rest, ps, file, offsets, segs)
      invariant id as int == |ps| + 1 && outPos == |file|
      decreases |rest|
    {
      var bytes, rest', len := ReadFully(rest, BUFFER_SIZE, BUFFER_SIZE);
      if len == 0 {
        break;
      }
      var table, id' := FillTable(bytes, id, ps);
      PiecesStep(rest, bytes, rest');
      ChunkCount(bytes);
      FirstStep(input, rest, ps, ps + Chunking(bytes), file, offsets, segs, bytes, rest', Chunking(bytes), table, id' as int);
      var written, count := WriteChunks(table, true);
      offsets := offsets + [outPos];
      file := file + written;
      outPos := outPos + count;
      segs := segs + [table];
      ps := ps + Chunking(bytes);
      rest, id := rest', id';
    }
    FirstDone(input, rest, ps);
  }

  /** The input read to its end: its chunks are those read. */
  lemma {:induction false} FirstDone(input: seq<byte>, rest: seq<byte>, done: seq<Piece>)
    requires Pieces(input) == done + Pieces(rest) && rest == []
    ensures Pieces(input) == done
  {
    assert Pieces(rest) == [];
    assert done + [] == done;
  }
}
