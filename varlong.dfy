/** The variable-length long codec of the archive: 7-bit groups, low group
    first, the high bit of a byte meaning "more bytes follow". The encoder
    sees the long's 64-bit pattern (it shifts with `>>>`), and the decoder
    gives up after ten bytes. This module holds the specification and
    DataTool's writeVarLong/readVarLong; DataProcessor has its own copies,
    proved against the same specification. */
module VarLong {
  import opened Base

  /** Value of a run of 7-bit groups, least significant group first. */
  function GroupValue(s: seq<byte>): nat
  {
    if s == [] then 0 else s[0] as int % 128 + 128 * GroupValue(s[1..])
  }

  function Pow128(i: nat): (r: nat)
    ensures r >= 1
  {
    if i == 0 then 1 else 128 * Pow128(i - 1)
  }

  /** `g << 7*i`, the shift by which a decoder places group i. */
  function Shl7(g: nat, i: nat): nat
  {
    if i == 0 then g else 128 * Shl7(g, i - 1)
  }

  /** A group placed at bit 7*i stays below bit 7*(i+1). */
  lemma {:induction false} Shl7Bound(g: nat, i: nat)
    requires g < 128
    ensures Shl7(g, i) + Pow128(i) <= Pow128(i + 1)
  {
    if i > 0 {
      Shl7Bound(g, i - 1);
    }
  }

  /** Placing a low group and the groups above it one at a time. */
  lemma {:induction false} Shl7Split(g: nat, h: nat, i: nat)
    ensures Shl7(g + 128 * h, i) == Shl7(g, i) + Shl7(h, i + 1)
  {
    if i > 0 {
      Shl7Split(g, h, i - 1);
    } else {
      assert Shl7(h, 1) == 128 * h;
    }
  }

  /** The bytes writeVarLong emits for the unsigned value `x`. */
  function Encode(x: nat): (r: seq<byte>)
    decreases x
    ensures 1 <= |r|
  {
    if x < 128 then [x] else [128 + x % 128] + Encode(x / 128)
  }

  /** The groups written are the value. */
  lemma {:induction false} EncodeValue(x: nat)
    ensures GroupValue(Encode(x)) == x
    decreases x
  {
    if x >= 128 {
      EncodeValue(x / 128);
      assert Encode(x)[1..] == Encode(x / 128);
    }
  }

  /** Every byte but the last has its high bit set; the last has it clear. */
  lemma {:induction false} EncodeShape(x: nat)
    ensures Encode(x)[|Encode(x)| - 1] < 128
    ensures forall i :: 0 <= i < |Encode(x)| - 1 ==> Encode(x)[i] >= 128
    decreases x
  {
    if x >= 128 {
      EncodeShape(x / 128);
      var r := Encode(x);
      assert r == [128 + x % 128] + Encode(x / 128);
      forall i | 0 <= i < |r| - 1
        ensures r[i] >= 128
      {
        if i > 0 {
          assert r[i] == Encode(x / 128)[i - 1];
        }
      }
    }
  }

  /** A value below 128^n needs at most n groups. */
  lemma {:induction false} EncodeLength(x: nat, n: nat)
    requires 1 <= n && x < Pow128(n)
    ensures |Encode(x)| <= n
  {
    if x >= 128 {
      assert Pow128(1) == 128;
      assert n >= 2;
      assert x / 128 < Pow128(n - 1);
      EncodeLength(x / 128, n - 1);
    }
  }

  lemma {:induction false} ModSmall(a: int)
    requires 0 <= a < TWO_64
    ensures a % TWO_64 == a
  {
  }

  lemma {:induction false} Pow128Facts()
    ensures Pow128(9) == 0x8000_0000_0000_0000
    ensures Pow128(10) == 0x40_0000_0000_0000_0000
  {
    assert Pow128(1) == 0x80;
    assert Pow128(2) == 0x4000;
    assert Pow128(3) == 0x20_0000;
    assert Pow128(4) == 0x1000_0000;
    assert Pow128(5) == 0x8_0000_0000;
    assert Pow128(6) == 0x400_0000_0000;
    assert Pow128(7) == 0x2_0000_0000_0000;
    assert Pow128(8) == 0x100_0000_0000_0000;
  }

  /** Every 64-bit pattern encodes in one to ten bytes. */
  lemma {:induction false} EncodeU64Length(x: u64)
    ensures 1 <= |Encode(x)| <= 10
  {
    Pow128Facts();
    EncodeLength(x, 10);
  }

  datatype Decoded = Decoded(value: i64, size: nat)

  /** readVarLong from index `i` on, with `acc` holding the groups of the
      first `i` bytes: group i is or-ed in at bit 7*i; the first byte whose
      high bit is clear, or the tenth byte whatever its high bit says, ends
      the value, and bits past the 64th are lost. Eof when the bytes run
      out first. */
  function DecodeFrom(s: seq<byte>, i: nat, acc: nat): (r: Result<Decoded>)
    requires i < 10
    ensures r.Ok? ==> i < r.value.size <= |s| && r.value.size <= 10
    decreases |s| - i
  {
    if i >= |s| then Err(Eof)
    else
      var next := acc + Shl7(s[i] % 128, i);
      if s[i] < 128 || i == 9 then Ok(Decoded(S64(next % TWO_64), i + 1))
      else DecodeFrom(s, i + 1, next)
  }

  /** readVarLong on a stream whose remaining bytes are `s`: the long read
      and how many bytes it took. */
  function Decode(s: seq<byte>): (r: Result<Decoded>)
    ensures r.Ok? ==> 1 <= r.value.size <= |s| && r.value.size <= 10
  {
    DecodeFrom(s, 0, 0)
  }

  /** Appending a group at position |s| places it at bit 7*|s|. */
  lemma {:induction false} GroupValueSnoc(s: seq<byte>, b: byte)
    ensures GroupValue(s + [b]) == GroupValue(s) + Shl7(b % 128, |s|)
  {
    if s == [] {
      assert [b][1..] == [];
    } else {
      var t := s + [b];
      assert t[1..] == s[1..] + [b];
      GroupValueSnoc(s[1..], b);
      Shl7Split(s[0] % 128, GroupValue(s[1..]), 0);
      Shl7Split(0, GroupValue(s[1..]) , |s| - 1);
    }
  }

  /** The value read from `i` on, when it ends at `n`: the groups of the
      first `n` bytes, cut to 64 bits. */
  lemma {:induction false} DecodeFromAt(s: seq<byte>, i: nat, acc: nat, n: nat)
    requires i < n <= 10 && n <= |s|
    requires forall j :: i <= j < n - 1 ==> s[j] >= 128
    requires s[n - 1] < 128 || n == 10
    requires acc == GroupValue(s[..i])
    ensures DecodeFrom(s, i, acc) == Ok(Decoded(S64(GroupValue(s[..n]) % TWO_64), n))
    decreases n - i
  {
    assert s[..i + 1] == s[..i] + [s[i]];
    GroupValueSnoc(s[..i], s[i]);
    if i < n - 1 {
      DecodeFromAt(s, i + 1, acc + Shl7(s[i] % 128, i), n);
    }
  }

  lemma {:induction false} DecodeFromShape(s: seq<byte>, i: nat, acc: nat)
    requires i < 10
    ensures DecodeFrom(s, i, acc).Ok? ==>
              var n := DecodeFrom(s, i, acc).value.size;
              (s[n - 1] < 128 || n == 10) &&
              forall j :: i <= j < n - 1 ==> s[j] >= 128
    ensures DecodeFrom(s, i, acc).Err? <==>
              |s| < 10 && forall j :: i <= j < |s| ==> s[j] >= 128
    ensures DecodeFrom(s, i, acc).Err? ==> DecodeFrom(s, i, acc).error == Eof
    decreases 10 - i
  {
    if i < |s| && !(s[i] < 128 || i == 9) {
      DecodeFromShape(s, i + 1, acc + Shl7(s[i] % 128, i));
    }
  }

  /** S64 inverts U64. */
  lemma {:induction false} SignedOfUnsigned(x: i64)
    ensures S64(U64(x)) == x
  {
  }

  /** readVarLong inverts writeVarLong, whatever follows in the stream. */
  lemma {:induction false} EncodeDecode(x: i64, rest: seq<byte>)
    ensures Decode(Encode(U64(x)) + rest) == Ok(Decoded(x, |Encode(U64(x))|))
  {
    var e := Encode(U64(x));
    var s := e + rest;
    EncodeU64Length(U64(x));
    EncodeShape(U64(x));
    assert s[..|e|] == e;
    assert s[..0] == [];
    EncodeValue(U64(x));
    DecodeFromAt(s, 0, 0, |e|);
    ModSmall(U64(x));
    SignedOfUnsigned(x);
  }

  /** readVarLong reads one to ten bytes and stops at the first byte whose
      high bit is clear (or at the tenth); it fails, with EOF, exactly when
      the stream ends before such a byte. */
  lemma {:induction false} DecodeShape(s: seq<byte>)
    ensures Decode(s).Ok? ==>
              var n := Decode(s).value.size;
              (s[n - 1] < 128 || n == 10) &&
              forall j :: 0 <= j < n - 1 ==> s[j] >= 128
    ensures Decode(s).Err? <==> |s| < 10 && forall j :: 0 <= j < |s| ==> s[j] >= 128
    ensures Decode(s).Err? ==> Decode(s).error == Eof
  {
    DecodeFromShape(s, 0, 0);
  }

  /** The long read is the groups of the bytes consumed, cut to 64 bits. */
  lemma {:induction false} DecodeValue(s: seq<byte>)
    requires Decode(s).Ok?
    ensures Decode(s).value.value == S64(GroupValue(s[..Decode(s).value.size]) % TWO_64)
  {
    DecodeFromShape(s, 0, 0);
    assert s[..0] == [];
    DecodeFromAt(s, 0, 0, Decode(s).value.size);
  }

  /** The decoder looks at nothing beyond the bytes it consumes. */
  lemma {:induction false} DecodePrefix(s: seq<byte>, t: seq<byte>)
    requires Decode(s).Ok?
    requires Decode(s).value.size <= |t|
    requires s[..Decode(s).value.size] == t[..Decode(s).value.size]
    ensures Decode(t) == Decode(s)
  {
    var n := Decode(s).value.size;
    DecodeFromShape(s, 0, 0);
    forall j | 0 <= j < n
      ensures t[j] == s[j]
    {
      assert t[j] == t[..n][j];
      assert s[j] == s[..n][j];
    }
    assert s[..0] == [] && t[..0] == [];
    DecodeFromAt(s, 0, 0, n);
    DecodeFromAt(t, 0, 0, n);
  }

  /** Before the tenth byte, a group gathered stays below bit 63, so the
      64-bit long holds it whole. */
  lemma {:induction false} GroupFits(acc: nat, g: nat, i: nat)
    requires i < 9 && acc < Pow128(i) && g < 128
    ensures (acc + Shl7(g, i)) % TWO_64 == acc + Shl7(g, i) < Pow128(i + 1)
  {
    Shl7Bound(g, i);
    Pow128Mono(i + 1, 9);
    Pow128Facts();
    ModSmall(acc + Shl7(g, i));
  }

  // ---------------------------------------------------------------------
  // DataTool.writeVarLong / DataTool.readVarLong
  // ---------------------------------------------------------------------

  /** DataTool.writeVarLong: the bytes written and their count. */
  method WriteVarLong(x: i64) returns (written: seq<byte>, len: int)
    ensures written == Encode(U64(x))
    ensures len == |written| && 1 <= len <= 10
  {
    var v: u64 := U64(x);
    written := [];
    len := 0;
    while v >= 128  // (x & ~0x7f) != 0
      invariant written + Encode(v) == Encode(U64(x))
      invariant len == |written|
      decreases v
    {
      var b: byte := 128 + v % 128;
      assert Encode(v) == [b] + Encode(v / 128);
      assert (written + [b]) + Encode(v / 128) == written + ([b] + Encode(v / 128));
      written := written + [b];
      v := v / 128;  // x >>>= 7
      len := len + 1;
    }
    written := written + [v];
    len := len + 1;
    EncodeU64Length(U64(x));
  }

  /** DataTool.readVarLong on a stream whose remaining bytes are `input`:
      the first byte is handled apart, then groups are or-ed in at bit
      7, 14, ..., 63. The groups never overlap, so `|` is written `+`. */
  method ReadVarLong(input: seq<byte>) returns (r: Result<Decoded>)
    ensures r == Decode(input)
  {
    if |input| == 0 {
      return Err(Eof);
    }
    var b := input[0];
    if b < 128 {
      return Ok(Decoded(b, 1));
    }
    var x: u64 := b % 128;
    var i := 1;
    var shift := 7;
    while shift < 64
      invariant 1 <= i <= 9 && i <= |input| && shift == 7 * i
      invariant x < Pow128(i) && Decode(input) == DecodeFrom(input, i, x)
      decreases 64 - shift
    {
      if i >= |input| {
        return Err(Eof);
      }
      b := input[i];
      var next: u64 := (x + Shl7(b % 128, i)) % TWO_64;  // x |= (b & 0x7f) << shift
      if b < 128 || i == 9 {
        return Ok(Decoded(S64(next), i + 1));
      }
      GroupFits(x, b % 128, i);
      x := next;
      i := i + 1;
      shift := shift + 7;
    }
    // the tenth byte always returns inside the loop
    assert false;
  }

  // ---------------------------------------------------------------------
  // DataProcessor.readVarLong / DataProcessor.writeVarLong
  // ---------------------------------------------------------------------

  /** DataProcessor.readVarLong: a single loop over shift 0, 7, ..., 63 that
      or-s each group in before testing the high bit. */
  method ProcessorReadVarLong(input: seq<byte>) returns (r: Result<Decoded>)
    ensures r == Decode(input)
  {
    var value: u64 := 0;
    var shift := 0;
    var i := 0;
    while shift < 64
      invariant 0 <= i <= 9 && i <= |input| && shift == 7 * i
      invariant value < Pow128(i) && Decode(input) == DecodeFrom(input, i, value)
      decreases 64 - shift
    {
      if i >= |input| {
        return Err(Eof);
      }
      var b := input[i];
      var next: u64 := (value + Shl7(b % 128, i)) % TWO_64;  // value |= (b & 0x7F) << shift
      if b < 128 || i == 9 {
        return Ok(Decoded(S64(next), i + 1));
      }
      GroupFits(value, b % 128, i);
      value := next;
      shift := shift + 7;
      i := i + 1;
    }
    // the tenth byte always returns inside the loop
    assert false;
  }

  /** DataProcessor.writeVarLong: `(value & 0x7F) | 0x80` while bits above
      the low seven remain, then the last group; returns the count. */
  method ProcessorWriteVarLong(val: i64) returns (written: seq<byte>, count: int)
    ensures written == Encode(U64(val))
    ensures count == |written| && 1 <= count <= 10
  {
    var value: u64 := U64(val);
    written := [];
    count := 0;
    while value >= 128  // (value & ~0x7FL) != 0
      invariant written + Encode(value) == Encode(U64(val))
      invariant count == |written|
      decreases value
    {
      var b: byte := value % 128 + 128;
      assert Encode(value) == [b] + Encode(value / 128);
      assert (written + [b]) + Encode(value / 128) == written + ([b] + Encode(value / 128));
      written := written + [b];
      value := value / 128;  // value >>>= 7
      count := count + 1;
    }
    written := written + [value];
    count := count + 1;
    EncodeU64Length(U64(val));
  }

  lemma {:induction false} Pow128Mono(i: nat, j: nat)
    requires i <= j
    ensures Pow128(i) <= Pow128(j)
    decreases j
  {
    if i < j {
      Pow128Mono(i, j - 1);
    }
  }
}
