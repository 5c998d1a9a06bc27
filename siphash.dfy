/** DataTool.getSipHash24: SipHash-2-4 over a range of a byte array, in
    Java long arithmetic: 64-bit words that wrap, which is what bv64 is. */
module SipHash {
  import opened Base

  /** The four state words v0..v3. */
  datatype State = State(v0: bv64, v1: bv64, v2: bv64, v3: bv64)

  /** The key mixed into the initialisation constants. */
  function Init(k0: bv64, k1: bv64): State
  {
    State(k0 ^ 0x736f6d6570736575, k1 ^ 0x646f72616e646f6d,
          k0 ^ 0x6c7967656e657261, k1 ^ 0x7465646279746573)
  }

  /** One SipRound. */
  function Round(s: State): State
  {
    var v0 := s.v0 + s.v1;
    var v2 := s.v2 + s.v3;
    var v1 := s.v1.RotateLeft(13) ^ v0;
    var v3 := s.v3.RotateLeft(16) ^ v2;
    var v0' := v0.RotateLeft(32);
    var v2' := v2 + v1;
    var v0'' := v0' + v3;
    var v1' := v1.RotateLeft(17) ^ v2';
    var v3' := v3.RotateLeft(21) ^ v0'';
    State(v0'', v1', v2'.RotateLeft(32), v3')
  }

  /** `n` SipRounds. */
  function Rounds(s: State, n: nat): State
  {
    if n == 0 then s else Round(Rounds(s, n - 1))
  }

  /** Bytes read as a little-endian number, the first byte lowest. */
  function LittleEndian(s: seq<byte>): (r: nat)
    ensures r < Pow256(|s|)
  {
    if s == [] then 0 else s[0] + 0x100 * LittleEndian(s[1..])
  }

  /** A byte appended to a little-endian number lands above the others. */
  lemma {:induction false} LittleEndianSnoc(s: seq<byte>, x: byte)
    ensures LittleEndian(s + [x]) == LittleEndian(s) + x * Pow256(|s|)
  {
    if s != [] {
      assert (s + [x])[1..] == s[1..] + [x];
      LittleEndianSnoc(s[1..], x);
    }
  }

  /** The word made of the first eight bytes of `t`, or, when fewer
      remain, of all of them with the low byte of the message length `len`
      in the top byte. The byte at index i lands in bits 8i..8i+7, which
      are still clear, so each `|=` of the source adds. */
  function Head(t: seq<byte>, len: nat): (r: u64)
  {
    if |t| < 8 then
      var m := LittleEndian(t);
      assert m < 0x100_0000_0000_0000 by { Pow256Mono(|t|, 7); }
      m + len % 0x100 * 0x100_0000_0000_0000
    else
      assert Pow256(8) == TWO_64;
      LittleEndian(t[..8])
  }

  /** The message words of the bytes `t` still to be read out of a message
      of `len` bytes: one per full eight bytes, then the 0..7 trailing
      bytes with the length. */
  function Words(t: seq<byte>, len: nat): (r: seq<u64>)
    ensures |r| == |t| / 8 + 1
    ensures r[0] == Head(t, len)
    decreases |t|
  {
    if |t| < 8 then [Head(t, len)] else [Head(t, len)] + Words(t[8..], len)
  }

  /** Every word but the last is a full group of eight message bytes,
      read little-endian. */
  lemma {:induction false} FullWords(t: seq<byte>, len: nat, k: nat)
    requires 8 * k + 8 <= |t|
    ensures Words(t, len)[k] == LittleEndian(t[8 * k..8 * k + 8])
  {
    if k > 0 {
      FullWords(t[8..], len, k - 1);
      assert t[8..][8 * (k - 1)..8 * (k - 1) + 8] == t[8 * k..8 * k + 8];
    }
  }

  /** The last word holds the 0..7 trailing bytes below bit 56 and the low
      byte of the message length above. */
  lemma {:induction false} LastWord(t: seq<byte>, len: nat)
    ensures var w := Words(t, len)[|t| / 8];
            && w / 0x100_0000_0000_0000 == len % 0x100
            && w % 0x100_0000_0000_0000 == LittleEndian(t[|t| / 8 * 8..])
  {
    if |t| < 8 {
      ShortHead(t, len);
      assert t[|t| / 8 * 8..] == t;
    } else {
      var n := |t| / 8;
      assert |t[8..]| / 8 == n - 1;
      assert Words(t, len)[n] == Words(t[8..], len)[n - 1];
      LastWord(t[8..], len);
      assert t[8..][(n - 1) * 8..] == t[n * 8..];
    }
  }

  lemma ShortHead(t: seq<byte>, len: nat)
    requires |t| < 8
    ensures Head(t, len) / 0x100_0000_0000_0000 == len % 0x100
    ensures Head(t, len) % 0x100_0000_0000_0000 == LittleEndian(t)
  {
    Pow256Mono(|t|, 7);
  }

  lemma {:induction false} Pow256Mono(a: nat, b: nat)
    requires a <= b
    ensures Pow256(a) <= Pow256(b)
  {
    if a < b {
      Pow256Mono(a, b - 1);
    }
  }

  /** `v3 ^= m`. */
  function MixIn(s: State, m: bv64): State
  {
    State(s.v0, s.v1, s.v2, s.v3 ^ m)
  }

  /** `v0 ^= m`. */
  function MixOut(s: State, m: bv64): State
  {
    State(s.v0 ^ m, s.v1, s.v2, s.v3)
  }

  /** `v2 ^= 0xff`, which starts the finalisation. */
  function Flag(s: State): State
  {
    State(s.v0, s.v1, s.v2 ^ 0xff, s.v3)
  }

  /** One compression of the word `m`: v3 ^= m, c rounds, v0 ^= m. */
  function Compress(s: State, m: u64, c: nat): State
  {
    MixOut(Rounds(MixIn(s, m as bv64), c), m as bv64)
  }

  /** The state after compressing `words` one by one, two rounds each. */
  function Absorb(s: State, words: seq<u64>): State
    decreases |words|
  {
    if words == [] then s else Absorb(Compress(s, words[0], 2), words[1..])
  }

  /** The finalisation: v2 ^= 0xff, four rounds, v0 ^= 0. */
  function Finish(s: State): State
  {
    MixOut(Rounds(Flag(s), 4), 0)
  }

  /** The result: the four words xor-ed together. */
  function Digest(s: State): bv64
  {
    s.v0 ^ s.v1 ^ s.v2 ^ s.v3
  }

  /** SipHash-2-4 of the bytes `msg` under the key (k0, k1), as a bit
      pattern. */
  function Hash(msg: seq<byte>, k0: bv64, k1: bv64): bv64
  {
    Digest(Finish(Absorb(Init(k0, k1), Words(msg, |msg|))))
  }

  /** getSipHash24(b, start, end, k0, k1): `off` steps through the range
      by eight; a step at or below `end` builds a word byte by byte and
      compresses it with two rounds, the one step past `end` finishes with
      four. */
  method GetSipHash24(b: seq<byte>, start: int, end: int, k0: bv64, k1: bv64) returns (h: bv64)
    requires 0 <= start <= end <= |b|
    ensures h == Hash(b[start..end], k0, k1)
  {
    var v := Init(k0, k1);
    var off := start;
    while off <= end + 8
      invariant Sipping(b, start, end, k0, k1, off, v)
      decreases end + 8 - off
    {
      var m: u64;
      var repeat: nat;
      ghost var before := v;
      if off <= end {
        m := ReadWord(b, start, end, off);
        v := MixIn(v, m as bv64);
        repeat := 2;
      } else {
        m := 0;
        v := Flag(v);
        repeat := 4;
      }
      ghost var mixed := v;
      for r := 0 to repeat
        invariant v == Rounds(mixed, r)
      {
        v := Round(v);
      }
      v := MixOut(v, m as bv64);
      if off <= end {
        AbsorbStep(b, start, end, k0, k1, off, before, m, v);
      } else {
        FinishStep(b, start, end, k0, k1, off, before, v);
      }
      off := off + 8;
    }
    h := Digest(v);
  }

  /** The loop invariant of getSipHash24: while `off` is within the
      range, what is left to absorb from `off` leads to the state that the
      whole message leads to; past `end` that state has been reached, and
      one step further it has been finished. */
  ghost predicate Sipping(b: seq<byte>, start: int, end: int, k0: bv64, k1: bv64, off: int, s: State)
    requires 0 <= start <= end <= |b|
  {
    var full := Absorb(Init(k0, k1), Words(b[start..end], end - start));
    && start <= off <= end + 16
    && (off - start) % 8 == 0
    && (off <= end ==> Absorb(s, Words(b[off..end], end - start)) == full)
    && (end < off <= end + 8 ==> s == full)
    && (end + 8 < off ==> s == Finish(full))
  }

  /** A step at or below `end` absorbs the word at `off`. */
  lemma {:induction false} AbsorbStep(b: seq<byte>, start: int, end: int, k0: bv64, k1: bv64, off: int, s: State, m: u64, s': State)
    requires 0 <= start <= end <= |b|
    requires Sipping(b, start, end, k0, k1, off, s) && off <= end
    requires m == Head(b[off..end], end - start)
    requires s' == MixOut(Rounds(MixIn(s, m as bv64), 2), m as bv64)
    ensures Sipping(b, start, end, k0, k1, off + 8, s')
  {
    var t := b[off..end];
    var w := Words(t, end - start);
    assert Absorb(s, w) == Absorb(s', w[1..]);
    if |t| >= 8 {
      assert t[8..] == b[off + 8..end];
    }
  }

  /** The step past `end` finishes. */
  lemma {:induction false} FinishStep(b: seq<byte>, start: int, end: int, k0: bv64, k1: bv64, off: int, s: State, s': State)
    requires 0 <= start <= end <= |b|
    requires Sipping(b, start, end, k0, k1, off, s) && end < off <= end + 8
    requires s' == MixOut(Rounds(Flag(s), 4), (0 as u64) as bv64)
    ensures Sipping(b, start, end, k0, k1, off + 8, s')
  {
  }

  /** The inner loop of getSipHash24: the word at `off`, byte by byte. */
  method ReadWord(b: seq<byte>, start: int, end: int, off: int) returns (m: u64)
    requires 0 <= start <= off <= end <= |b|
    ensures m == Head(b[off..end], end - start)
  {
    var acc := 0;
    var i := 0;
    while i < 8 && off + i < end
      invariant 0 <= i <= 8 && off + i <= end
      invariant acc == LittleEndian(b[off..off + i])
    {
      assert b[off..off + i + 1] == b[off..off + i] + [b[off + i]];
      LittleEndianSnoc(b[off..off + i], b[off + i]);
      acc := acc + b[off + i] * Pow256(i);
      i := i + 1;
    }
    if i < 8 {
      assert off + i == end;
      acc := acc + (end - start) % 0x100 * 0x100_0000_0000_0000;
    } else {
      assert b[off..end][..8] == b[off..off + 8];
    }
    assert acc == Head(b[off..end], end - start);
    m := acc;
  }
}
