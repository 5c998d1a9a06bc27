/** DataTool.getKey and readFully: how the packer cuts its input into
    chunks. A chunk ends where the SipHash of the ten bytes before a
    position has chosen low bits, but never before 4097 bytes and never
    after 65537; its sort key is the least window hash of the chunk and an
    eight-bucket byte signature. Everything is stated over the bytes from
    the chunk start to the end of the valid buffer, so the cut and the key
    depend on those bytes only, not on where they sit. */
module Chunker {
  import opened Base
  import SipHash

  /** `minLen`: no cut while at most this many bytes have been scanned. */
  const MIN_LEN: int := 4096

  /** `Long.MAX_VALUE`, where the search for the least hash starts. */
  const MAX_LONG: i64 := 0x7fff_ffff_ffff_ffff

  // ---------------------------------------------------------------------
  // Window hashes and the cut condition
  // ---------------------------------------------------------------------

  /** The hash of the ten bytes before offset `j` under getKey's SipHash
      key (111, 11224), as the 64 bits of the long getSipHash24 returns. */
  function WindowBits(s: seq<byte>, j: int): bv64
    requires 10 <= j <= |s|
  {
    SipHash.Hash(s[j - 10..j], 111, 11224)
  }

  /** `h` holds, at each offset `j` from the chunk start before the end of
      the valid bytes, the hash getKey's loop computes there: the window of
      the ten bytes before `j` for the offsets past 10; the loop skips the
      others, which hold 0 here. */
  predicate Hashes(s: seq<byte>, h: seq<i64>)
  {
    && |h| == |s|
    && (forall j {:trigger WindowBits(s, j)} :: 10 < j < |s| ==> h[j] == Long(WindowBits(s, j)))
    && (forall j :: 0 <= j <= 10 && j < |s| ==> h[j] == 0)
  }

  /** The window hashes of the valid bytes `s`. */
  ghost function Windows(s: seq<byte>): (h: seq<i64>)
    ensures Hashes(s, h)
  {
    var w: seq<i64> := seq(|s|, j requires 0 <= j < |s| => if j <= 10 then 0 else Long(WindowBits(s, j)));
    assert Hashes(s, w);
    var h :| Hashes(s, h);
    h
  }

  /** The break condition of getKey's loop at offset `j` from the chunk
      start, for the hash `x` there: past MIN_LEN bytes, the low 12 bits of
      the hash are 1 (`hash & mask`), or past 4 * MIN_LEN its low 11 bits
      are (`hash & (mask >> 1)`), or past 16 * MIN_LEN in any case. */
  predicate Stop(j: int, x: i64)
  {
    && j > MIN_LEN
    && (|| x % 0x1000 == 1
        || (j > 4 * MIN_LEN && x % 0x800 == 1)
        || j > 16 * MIN_LEN)
  }

  /** getKey breaks at offset `j`. */
  predicate Cut(h: seq<i64>, j: int)
    requires 0 <= j < |h|
  {
    Stop(j, h[j])
  }

  /** The first offset at or after `j` where getKey breaks, or `|h|` when
      it runs to the end of the valid bytes. */
  function FirstCut(h: seq<i64>, j: int): (r: int)
    requires 0 <= j <= |h|
    ensures j <= r <= |h|
    ensures r == |h| || Cut(h, r)
    ensures forall i :: j <= i < r ==> !Cut(h, i)
    decreases |h| - j
  {
    if j == |h| then |h| else if Cut(h, j) then j else FirstCut(h, j + 1)
  }

  /** The length of the chunk at the front of the valid bytes. */
  function CutLength(h: seq<i64>): (r: int)
    ensures 0 <= r <= |h|
  {
    FirstCut(h, 0)
  }

  /** A chunk is the rest of the buffer or 4097 to 65537 bytes long; in
      particular it is never empty while bytes remain, so the chunk loop of
      sort makes progress. */
  lemma {:induction false} CutBounds(h: seq<i64>)
    ensures CutLength(h) == |h| || MIN_LEN < CutLength(h) <= 16 * MIN_LEN + 1
    ensures h != [] ==> CutLength(h) >= 1
  {
    var r := CutLength(h);
    if r < |h| && r > 16 * MIN_LEN + 1 {
      assert Cut(h, 16 * MIN_LEN + 1);
      assert false;
    }
  }

  /** An offset with no cut before it that is a cut or the end is the
      first cut: the exit of getKey's loop pins down CutLength. */
  lemma {:induction false} FirstCutUnique(h: seq<i64>, r: int)
    requires 0 <= r <= |h|
    requires r == |h| || Cut(h, r)
    requires forall i :: 0 <= i < r ==> !Cut(h, i)
    ensures r == CutLength(h)
  {
  }

  // ---------------------------------------------------------------------
  // The least window hash
  // ---------------------------------------------------------------------

  /** The unsigned value of the low `n` bits of `x`, bit by bit. */
  function Unsigned(x: bv64, n: nat): (r: nat)
    requires n <= 64
    decreases n, x
  {
    if n == 0 then 0 else 2 * Unsigned(x >> 1, n - 1) + (if x & 1 == 1 then 1 else 0)
  }

  lemma {:induction false} UnsignedBound(x: bv64, n: nat)
    requires n <= 64
    ensures Unsigned(x, n) < Pow2(n)
    decreases n
  {
    if n > 0 {
      UnsignedBound(x >> 1, n - 1);
    }
  }

  /** The long whose bit pattern is `x`. */
  function Long(x: bv64): (r: i64)
  {
    UnsignedBound(x, 64);
    Pow2Of64();
    var u := Unsigned(x, 64);
    if u < 0x8000_0000_0000_0000 then u else u - TWO_64
  }

  /** `if (hash < min) min = hash;` */
  function Lower(min: i64, hash: i64): i64
  {
    if hash < min then hash else min
  }

  /** `min` after the windows ending at offsets 11 .. n-1 (the loop skips
      offsets up to 10): Long.MAX_VALUE lowered by every smaller hash, the
      hashes compared as signed longs. */
  function MinHash(h: seq<i64>, n: int): (r: i64)
    requires n <= |h|
    decreases n
  {
    if n <= 11 then MAX_LONG else Lower(MinHash(h, n - 1), h[n - 1])
  }

  /** The least hash is no greater than any window's. */
  lemma {:induction false} MinHashLeast(h: seq<i64>, n: int, j: int)
    requires n <= |h| && 11 <= j < n
    ensures MinHash(h, n) <= h[j]
    decreases n
  {
    if j < n - 1 {
      MinHashLeast(h, n - 1, j);
    }
  }

  /** ... and it is one of them, unless it is still Long.MAX_VALUE. */
  lemma {:induction false} MinHashAttained(h: seq<i64>, n: int)
    requires n <= |h|
    ensures MinHash(h, n) == MAX_LONG || exists j :: 11 <= j < n && MinHash(h, n) == h[j]
    decreases n
  {
    if n > 11 {
      MinHashAttained(h, n - 1);
    }
  }

  /** The windows a chunk's key takes its least hash from: those up to and
      including the one at the cut when the loop broke, all of them when
      it ran to the end. */
  function Scanned(h: seq<i64>): (n: int)
    ensures n <= |h|
  {
    var c := CutLength(h);
    if c < |h| then c + 1 else c
  }

  /** key[0] = (int) (min >>> 32): the top 32 bits. */
  function HighHalf(m: i64): i32
  {
    ToI32(U64(m) / TWO_32)
  }

  /** key[1] = (int) min: the low 32 bits. */
  function LowHalf(m: i64): i32
  {
    ToI32(m)
  }

  /** The two ints carry the whole 64 bits of the least hash. */
  lemma {:induction false} HalvesRoundTrip(m: i64)
    ensures U64(m) == HighHalf(m) % TWO_32 * TWO_32 + LowHalf(m) % TWO_32
  {
    var u := U64(m);
    var q := u / TWO_32;
    ToI32Mod(q);
    ToI32Mod(m);
    assert u == q * TWO_32 + u % TWO_32;
    if m < 0 {
      assert u == m + 0x1_0000_0000 * TWO_32;
      assert u % TWO_32 == m % TWO_32;
    }
  }

  // ---------------------------------------------------------------------
  // The byte signature
  // ---------------------------------------------------------------------

  /** How many bytes of `s` fall in bucket `k`, the top three bits. */
  function Count(s: seq<byte>, k: int): (r: nat)
    ensures r <= |s|
  {
    if s == [] then 0
    else Count(s[..|s| - 1], k) + (if s[|s| - 1] / 32 == k then 1 else 0)
  }

  lemma {:induction false} CountSnoc(s: seq<byte>, x: byte, k: int)
    ensures Count(s + [x], k) == Count(s, k) + (if x / 32 == k then 1 else 0)
  {
    assert (s + [x])[..|s|] == s;
  }

  /** Whether bucket `k` holds more than a 32nd of the chunk. */
  function Heavy(s: seq<byte>, k: int): (r: int)
  {
    if Count(s, k) > |s| / 32 then 1 else 0
  }

  /** `cs` after its loop has shifted in buckets 0 .. n-1. */
  function SigBits(s: seq<byte>, n: nat): (r: nat)
  {
    if n == 0 then 0 else 2 * SigBits(s, n - 1) + Heavy(s, n - 1)
  }

  /** key[2]. */
  function Signature(s: seq<byte>): (r: nat)
  {
    SigBits(s, 8)
  }

  function Pow2(n: nat): (r: nat)
  {
    if n == 0 then 1 else 2 * Pow2(n - 1)
  }

  lemma {:induction false} Pow2Add(a: nat, b: nat)
    ensures Pow2(a + b) == Pow2(a) * Pow2(b)
    decreases b
  {
    if b > 0 {
      Pow2Add(a, b - 1);
    }
  }

  lemma Pow2Of64()
    ensures Pow2(64) == TWO_64
  {
    assert Pow2(8) == 0x100;
    Pow2Add(8, 8);
    Pow2Add(16, 16);
    Pow2Add(32, 32);
  }

  /** `x >> n`. */
  function Shr(x: nat, n: nat): (r: nat)
  {
    if n == 0 then x else Shr(x / 2, n - 1)
  }

  lemma {:induction false} SigBitsBits(s: seq<byte>, n: nat, k: nat)
    requires k < n
    ensures SigBits(s, n) < Pow2(n)
    ensures Shr(SigBits(s, n), n - 1 - k) % 2 == Heavy(s, k)
  {
    if k < n - 1 {
      SigBitsBits(s, n - 1, k);
      var y := SigBits(s, n - 1);
      assert (2 * y + Heavy(s, n - 1)) / 2 == y;
    } else if n > 1 {
      SigBitsBits(s, n - 1, 0);
    }
  }

  /** The signature is a byte whose bit 7 - k says whether bucket k holds
      more than |s| / 32 bytes. */
  lemma SignatureBits(s: seq<byte>, k: nat)
    requires k < 8
    ensures Signature(s) < 0x100
    ensures Shr(Signature(s), 7 - k) % 2 == 1 <==> Count(s, k) > |s| / 32
  {
    SigBitsBits(s, 8, k);
  }

  // ---------------------------------------------------------------------
  // getKey
  // ---------------------------------------------------------------------

  /** `getSipHash24(data, pos - 10, pos, 111, 11224)` inside getKey, with
      `s` the valid bytes from the chunk start and `j = pos - start`. */
  method HashWindow(s: seq<byte>, j: int) returns (hash: i64)
    requires 10 < j < |s|
    ensures hash == Windows(s)[j]
  {
    var bits := SipHash.GetSipHash24(s, j - 10, j, 111, 11224);
    hash := Long(bits);
    assert Windows(s)[j] == Long(WindowBits(s, j));
  }

  /** The invariant of getKey's scan after `j` offsets: no break yet, and
      `min` the least hash of the windows seen. */
  ghost predicate Scanning(h: seq<i64>, j: int, min: i64)
  {
    && 0 <= j <= |h|
    && (forall i :: 0 <= i < j ==> !Cut(h, i))
    && min == MinHash(h, j)
  }

  lemma {:induction false} ScanSkip(h: seq<i64>, j: int, min: i64)
    requires Scanning(h, j, min) && j <= 10 && j < |h|
    ensures Scanning(h, j + 1, min)
  {
  }

  lemma {:induction false} ScanStep(h: seq<i64>, j: int, min: i64, hash: i64)
    requires Scanning(h, j, min) && 10 < j < |h| && hash == h[j] && !Stop(j, hash)
    ensures Scanning(h, j + 1, Lower(min, hash))
  {
  }

  lemma {:induction false} ScanBreak(h: seq<i64>, j: int, min: i64, hash: i64)
    requires Scanning(h, j, min) && 10 < j < |h| && hash == h[j] && Stop(j, hash)
    ensures j == CutLength(h) && Lower(min, hash) == MinHash(h, Scanned(h))
  {
    FirstCutUnique(h, j);
  }

  lemma {:induction false} ScanEnd(h: seq<i64>, min: i64)
    requires Scanning(h, |h|, min)
    ensures |h| == CutLength(h) && min == MinHash(h, Scanned(h))
  {
    FirstCutUnique(h, |h|);
  }

  /** The scan loop of getKey over the valid bytes `s` from the chunk
      start (`pos` is `start + j`): how far the chunk reaches and the least
      hash seen. */
  method Scan(s: seq<byte>) returns (len: int, min: i64)
    ensures len == CutLength(Windows(s))
    ensures min == MinHash(Windows(s), Scanned(Windows(s)))
  {
    ghost var h := Windows(s);
    min := MAX_LONG;
    var j := 0;
    while j < |s|
      invariant Scanning(h, j, min)
      decreases |s| - j
    {
      if j <= 10 {
        ScanSkip(h, j, min);
        j := j + 1;
        continue;
      }
      var hash := HashWindow(s, j);
      ghost var before := min;
      min := Lower(min, hash);
      if Stop(j, hash) {
        ScanBreak(h, j, before, hash);
        break;
      }
      ScanStep(h, j, before, hash);
      j := j + 1;
    }
    if j == |s| {
      ScanEnd(h, min);
    }
    len := j;
  }

  /** The counting loop of getKey: `counts[x >> 5]++` for every byte of
      the chunk. */
  method CountBuckets(data: seq<byte>, start: int, end: int) returns (counts: array<int>)
    requires 0 <= start <= end <= |data|
    ensures fresh(counts) && counts.Length == 8
    ensures forall k :: 0 <= k < 8 ==> counts[k] == Count(data[start..end], k)
  {
    counts := new int[8](_ => 0);
    for i := start to end
      invariant forall k :: 0 <= k < 8 ==> counts[k] == Count(data[start..i], k)
    {
      var x := data[i];
      assert data[start..i + 1] == data[start..i] + [x];
      forall k | 0 <= k < 8 {
        CountSnoc(data[start..i], x, k);
      }
      counts[x / 32] := counts[x / 32] + 1;
    }
  }

  /** The signature loop of getKey: `cs` shifts in one bit per bucket. */
  method SignatureOf(counts: array<int>, len: int, ghost chunk: seq<byte>) returns (cs: int)
    requires counts.Length == 8 && len == |chunk|
    requires forall k :: 0 <= k < 8 ==> counts[k] == Count(chunk, k)
    ensures cs == Signature(chunk)
  {
    cs := 0;
    for i := 0 to 8
      invariant cs == SigBits(chunk, i)
    {
      cs := cs * 2;
      if counts[i] > len / 32 {
        cs := cs + 1;
      }
    }
  }

  /** getKey(data, start, maxPos): the chunk at `start` of the valid bytes
      data[..maxPos], as its four-int key, the last int being its length. */
  method GetKey(data: seq<byte>, start: int, maxPos: int) returns (key: seq<i32>)
    requires 0 <= start <= maxPos <= |data| <= MAX_ARRAY
    ensures |key| == 4
    ensures key[3] == CutLength(Windows(data[start..maxPos]))
    ensures key[0] == HighHalf(MinHash(Windows(data[start..maxPos]), Scanned(Windows(data[start..maxPos]))))
    ensures key[1] == LowHalf(MinHash(Windows(data[start..maxPos]), Scanned(Windows(data[start..maxPos]))))
    ensures 0 <= key[3] && key[2] == Signature(data[start..start + key[3]])
    ensures key == KeyOf(data[start..maxPos])
  {
    var len, min := Scan(data[start..maxPos]);
    var counts := CountBuckets(data, start, start + len);
    var cs := SignatureOf(counts, len, data[start..start + len]);
    SignatureBits(data[start..start + len], 0);
    key := [HighHalf(min), LowHalf(min), cs, len];
    assert data[start..maxPos][..len] == data[start..start + len];
  }

  // ---------------------------------------------------------------------
  // The chunks of a buffer
  // ---------------------------------------------------------------------

  /** The key getKey gives the chunk at the front of `s`, the valid bytes
      from the chunk start on. */
  ghost function KeyOf(s: seq<byte>): seq<i32>
    requires |s| <= MAX_ARRAY
  {
    var h := Windows(s);
    var n := CutLength(h);
    var m := MinHash(h, Scanned(h));
    SignatureBits(s[..n], 0);
    [HighHalf(m), LowHalf(m), Signature(s[..n]), n]
  }

  /** A chunk: the sort key getKey gave it and its bytes. */
  datatype Piece = Piece(key: seq<i32>, payload: seq<byte>)

  /** The chunk getKey cuts at the front of `s`, the valid bytes from the
      chunk start on. */
  ghost function Front(s: seq<byte>): Piece
    requires |s| <= MAX_ARRAY
  {
    var k := KeyOf(s);
    Piece(k, s[..k[3]])
  }

  /** The offsets where the chunks of `s` start, from offset `pos` on:
      `pos += key[3]` until the end of the valid bytes. */
  ghost function Starts(s: seq<byte>, pos: int): seq<int>
    requires |s| <= MAX_ARRAY && 0 <= pos <= |s|
    decreases |s| - pos
  {
    if pos == |s| then []
    else
      CutBounds(Windows(s[pos..]));
      [pos] + Starts(s, pos + CutLength(Windows(s[pos..])))
  }

  lemma {:induction false} StartsIn(s: seq<byte>, pos: int)
    requires |s| <= MAX_ARRAY && 0 <= pos <= |s|
    ensures |Starts(s, pos)| <= |s| - pos
    ensures forall i :: 0 <= i < |Starts(s, pos)| ==> pos <= Starts(s, pos)[i] < |s|
    decreases |s| - pos
  {
    if pos < |s| {
      CutBounds(Windows(s[pos..]));
      StartsIn(s, pos + CutLength(Windows(s[pos..])));
    }
  }

  /** The chunks getKey cuts at the offsets `st` of `s`. */
  ghost function FrontsAt(s: seq<byte>, st: seq<int>): seq<Piece>
    requires |s| <= MAX_ARRAY && forall i :: 0 <= i < |st| ==> 0 <= st[i] <= |s|
  {
    seq(|st|, i requires 0 <= i < |st| => Front(s[st[i]..]))
  }

  lemma {:induction false} FrontsCons(s: seq<byte>, x: int, st: seq<int>)
    requires |s| <= MAX_ARRAY && 0 <= x <= |s| && forall i :: 0 <= i < |st| ==> 0 <= st[i] <= |s|
    ensures FrontsAt(s, [x] + st) == [Front(s[x..])] + FrontsAt(s, st)
  {
    var a := FrontsAt(s, [x] + st);
    var b := [Front(s[x..])] + FrontsAt(s, st);
    forall i | 0 <= i < |a|
      ensures a[i] == b[i]
    {
      if i > 0 {
        assert ([x] + st)[i] == st[i - 1];
      }
    }
  }

  /** The chunks of `s` from offset `pos` on. */
  ghost function ChunksFrom(s: seq<byte>, pos: int): seq<Piece>
    requires |s| <= MAX_ARRAY && 0 <= pos <= |s|
  {
    StartsIn(s, pos);
    FrontsAt(s, Starts(s, pos))
  }

  /** The chunks `sort` cuts the valid bytes of one buffer into: getKey at
      the start, `pos += key[3]`, again until the end. */
  ghost function Chunking(s: seq<byte>): seq<Piece>
    requires |s| <= MAX_ARRAY
  {
    ChunksFrom(s, 0)
  }

  /** The chunk at the front: its key is four ints, the last its length,
      the third a signature byte; it holds at least one byte, and 4097 to
      65537 unless it runs to the end. */
  lemma {:induction false} FrontShape(s: seq<byte>)
    requires |s| <= MAX_ARRAY && s != []
    ensures var p := Front(s);
            && |p.key| == 4 && p.key[3] as int == |p.payload| == CutLength(Windows(s))
            && 1 <= |p.payload| && 0 <= p.key[2] < 0x100
            && (|p.payload| == |s| || MIN_LEN < |p.payload| <= 16 * MIN_LEN + 1)
  {
    var n := CutLength(Windows(s));
    CutBounds(Windows(s));
    SignatureBits(s[..n], 0);
  }

  /** The bytes of the chunks, one after the other. */
  function Joined(ps: seq<Piece>): seq<byte>
  {
    if ps == [] then [] else ps[0].payload + Joined(ps[1..])
  }

  /** What a chunk of a buffer looks like: a four-int key whose last int
      is its length, a signature byte, and 4097 to 65537 bytes unless it
      is the last of the buffer, which is never empty. */
  predicate Shaped(ps: seq<Piece>)
  {
    forall i :: 0 <= i < |ps| ==>
      && |ps[i].key| == 4 && ps[i].key[3] as int == |ps[i].payload| >= 1
      && 0 <= ps[i].key[2] < 0x100
      && (i == |ps| - 1 || MIN_LEN < |ps[i].payload| <= 16 * MIN_LEN + 1)
  }

  /** A first chunk in shape before chunks in shape. */
  lemma {:induction false} ShapedCons(p: Piece, rest: seq<Piece>)
    requires Shaped(rest) && Shaped([p])
    requires rest != [] ==> MIN_LEN < |p.payload| <= 16 * MIN_LEN + 1
    ensures Shaped([p] + rest)
  {
    var ps := [p] + rest;
    forall i | 0 <= i < |ps|
      ensures |ps[i].key| == 4 && ps[i].key[3] as int == |ps[i].payload| >= 1
      ensures 0 <= ps[i].key[2] < 0x100
      ensures i == |ps| - 1 || MIN_LEN < |ps[i].payload| <= 16 * MIN_LEN + 1
    {
      if i > 0 {
        assert ps[i] == rest[i - 1];
      } else {
        assert ps[0] == [p][0];
      }
    }
  }

  /** The chunks of a buffer cover it exactly, in order, and are shaped
      as the cut rules say. */
  lemma {:induction false} ChunksCover(s: seq<byte>, pos: int)
    requires |s| <= MAX_ARRAY && 0 <= pos <= |s|
    ensures Joined(ChunksFrom(s, pos)) == s[pos..]
    ensures Shaped(ChunksFrom(s, pos))
    ensures |ChunksFrom(s, pos)| <= |s| - pos
    decreases |s| - pos
  {
    if pos < |s| {
      var p, next := NextChunk(s, pos);
      ChunksCover(s, next);
      CoverCons(s, pos, next, p, ChunksFrom(s, next));
    } else {
      assert Starts(s, pos) == [];
    }
  }

  /** One turn of the chunk loop: the chunks from `pos` are the one getKey
      cuts there, in the shape the cut rules give it, and the chunks from
      where the next one starts. */
  lemma {:induction false} NextChunk(s: seq<byte>, pos: int) returns (p: Piece, next: int)
    requires |s| <= MAX_ARRAY && 0 <= pos < |s|
    ensures pos < next <= |s| && p.payload == s[pos..next] && p.key == KeyOf(s[pos..|s|])
    ensures |p.key| == 4 && p.key[3] as int == |p.payload| && 0 <= p.key[2] < 0x100
    ensures next == |s| || MIN_LEN < |p.payload| <= 16 * MIN_LEN + 1
    ensures ChunksFrom(s, pos) == [p] + ChunksFrom(s, next)
  {
    assert s[pos..|s|] == s[pos..];
    p := Front(s[pos..]);
    FrontShape(s[pos..]);
    next := pos + |p.payload|;
    StartsIn(s, next);
    assert Starts(s, pos) == [pos] + Starts(s, next);
    FrontsCons(s, pos, Starts(s, next));
  }

  /** A shaped chunk of the bytes from `pos` to `next` before the shaped
      chunks of the bytes after. */
  lemma {:induction false} CoverCons(s: seq<byte>, pos: int, next: int, p: Piece, rest: seq<Piece>)
    requires 0 <= pos < next <= |s| && p.payload == s[pos..next]
    requires |p.key| == 4 && p.key[3] as int == |p.payload| && 0 <= p.key[2] < 0x100
    requires next == |s| || MIN_LEN < |p.payload| <= 16 * MIN_LEN + 1
    requires Joined(rest) == s[next..] && Shaped(rest) && |rest| <= |s| - next
    ensures Joined([p] + rest) == s[pos..] && Shaped([p] + rest) && |[p] + rest| <= |s| - pos
  {
    assert ([p] + rest)[1..] == rest;
    assert s[pos..] == s[pos..next] + s[next..];
    assert Shaped([p]);
    if rest != [] {
      assert Joined(rest) != [];
    }
    ShapedCons(p, rest);
  }

  lemma {:induction false} ChunkingCovers(s: seq<byte>)
    requires |s| <= MAX_ARRAY
    ensures Joined(Chunking(s)) == s
    ensures Shaped(Chunking(s))
    ensures |Chunking(s)| <= |s|
  {
    ChunksCover(s, 0);
    assert s[0..] == s;
  }
}
