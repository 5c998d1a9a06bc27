/** Java's primitive value ranges, the two's-complement conversions between
    them, big-endian integers as DataOutputStream writes them, and the
    error and option types shared by the archiver. */
module Base {

  /** A Java byte read through `& 0xff` (InputStream.read returns 0..255). */
  type byte = x: int | 0 <= x < 0x100

  /** A Java int. */
  type i32 = x: int | -0x8000_0000 <= x < 0x8000_0000

  /** A Java long. */
  type i64 = x: int | -0x8000_0000_0000_0000 <= x < 0x8000_0000_0000_0000

  /** The bit pattern of a Java long read as unsigned (what `>>>` sees). */
  type u64 = x: int | 0 <= x < 0x1_0000_0000_0000_0000

  const TWO_32: int := 0x1_0000_0000
  const TWO_64: int := 0x1_0000_0000_0000_0000

  /** Largest length of a Java array. */
  const MAX_ARRAY: int := 0x7fff_ffff

  /** The bit pattern of a long. */
  function U64(x: i64): (r: u64)
    ensures r % TWO_64 == x % TWO_64
    ensures x >= 0 ==> r == x
  {
    if x < 0 then x + TWO_64 else x
  }

  /** The long whose bit pattern is `x`. */
  function S64(x: u64): (r: i64)
    ensures U64(r) == x
  {
    if x < 0x8000_0000_0000_0000 then x else x - TWO_64
  }

  /** Java's narrowing cast `(int) x` of an integer value: keep the low 32 bits. */
  function ToI32(x: int): i32
  {
    var m := x % TWO_32;
    if m < 0x8000_0000 then m else m - TWO_32
  }

  /** `(int) x` keeps x modulo 2^32, and changes nothing in the int range. */
  lemma {:induction false} ToI32Mod(x: int)
    ensures ToI32(x) % TWO_32 == x % TWO_32
    ensures -0x8000_0000 <= x < 0x8000_0000 ==> ToI32(x) == x
  {
  }

  /** Java int addition wraps: adding to a wrapped sum wraps the exact sum. */
  lemma {:induction false} ToI32Add(x: int, y: int)
    ensures ToI32(ToI32(x) + y) == ToI32(x + y)
  {
    var m := x / TWO_32;
    var k := if x % TWO_32 < 0x8000_0000 then m else m + 1;
    assert ToI32(x) == x - TWO_32 * k;
    ModShift(x + y, k);
  }

  lemma {:induction false} ModShift(z: int, k: int)
    ensures ToI32(z - TWO_32 * k) == ToI32(z)
  {
    assert (z - TWO_32 * k) % TWO_32 == z % TWO_32;
  }

  /** Java's `(byte) x` followed by sign extension: a byte as a signed value. */
  function Signed(b: byte): (r: int)
    ensures -128 <= r < 128 && r % 0x100 == b
  {
    if b < 128 then b else b - 0x100
  }

  function Pow256(n: nat): (r: nat)
    ensures r >= 1
  {
    if n == 0 then 1 else 0x100 * Pow256(n - 1)
  }

  /** The low `n` bytes of `u`, most significant first. */
  function BigEndian(u: nat, n: nat): (r: seq<byte>)
    ensures |r| == n
  {
    if n == 0 then [] else BigEndian(u / 0x100, n - 1) + [u % 0x100]
  }

  /** The unsigned value of a big-endian byte string. */
  function BigEndianValue(s: seq<byte>): (r: nat)
    ensures r < Pow256(|s|)
  {
    if s == [] then 0
    else
      var v := BigEndianValue(s[..|s| - 1]);
      assert v * 0x100 + s[|s| - 1] < Pow256(|s|) by {
        assert v + 1 <= Pow256(|s| - 1);
        assert (v + 1) * 0x100 <= Pow256(|s| - 1) * 0x100;
      }
      v * 0x100 + s[|s| - 1]
  }

  lemma {:induction false} BigEndianRoundTrip(u: nat, n: nat)
    requires u < Pow256(n)
    ensures BigEndianValue(BigEndian(u, n)) == u
  {
    if n > 0 {
      var s := BigEndian(u, n);
      assert s[..|s| - 1] == BigEndian(u / 0x100, n - 1);
      assert u / 0x100 < Pow256(n - 1);
      BigEndianRoundTrip(u / 0x100, n - 1);
    }
  }

  /** DataOutputStream.writeInt: four bytes, most significant first. */
  function BigEndian32(x: i32): (r: seq<byte>)
    ensures |r| == 4
  {
    BigEndian(x % TWO_32, 4)
  }

  /** DataInputStream.readInt over the first four bytes. */
  function ReadBigEndian32(s: seq<byte>): (r: i32)
    requires |s| >= 4
  {
    ToI32(BigEndianValue(s[..4]))
  }

  /** readInt inverts writeInt. */
  lemma {:induction false} BigEndian32RoundTrip(x: i32, rest: seq<byte>)
    ensures ReadBigEndian32(BigEndian32(x) + rest) == x
  {
    var u := x % TWO_32;
    assert Pow256(4) == TWO_32;
    BigEndianRoundTrip(u, 4);
    assert (BigEndian32(x) + rest)[..4] == BigEndian32(x);
  }

  /** DataOutputStream.writeShort of an unsigned 16-bit length (the prefix of writeUTF). */
  function BigEndian16(x: nat): (r: seq<byte>)
    requires x < 0x1_0000
    ensures |r| == 2 && BigEndianValue(r) == x
  {
    assert Pow256(2) == 0x1_0000;
    BigEndianRoundTrip(x, 2);
    BigEndian(x, 2)
  }

  /** The failures the archiver reports; every one of them aborts the whole call. */
  datatype Error =
    | Eof                       // EOFException: the stream ended inside a value
    | NegativeArraySize         // a record length that is negative as a Java int
    | InvalidHeader             // IOException("Invalid header"): the magic is not "H2A1"
    | IllegalDirectoryStream    // IOException("Illegal directory stream")
    | DivisionByZero            // ArithmeticException
    | NotUnderBase              // IOException: a listed file does not start with the base directory
    | IndexOutOfBounds          // StringIndexOutOfBoundsException from substring
    | UtfTooLong                // UTFDataFormatException: writeUTF of more than 65535 bytes

  /** The failures Java raises as RuntimeExceptions, which a `catch
      (IOException e)` does not stop. */
  predicate Unchecked(e: Error)
  {
    e == NegativeArraySize || e == DivisionByZero || e == IndexOutOfBounds
  }

  datatype Result<+T> = Ok(value: T) | Err(error: Error)

  datatype Option<+T> = None | Some(value: T)

  /** Concatenation of a list of byte strings. */
  function Flatten(parts: seq<seq<byte>>): (r: seq<byte>)
  {
    if parts == [] then [] else parts[0] + Flatten(parts[1..])
  }

  lemma {:induction false} FlattenAppend(a: seq<seq<byte>>, b: seq<seq<byte>>)
    ensures Flatten(a + b) == Flatten(a) + Flatten(b)
  {
    if a == [] {
      assert a + b == b;
    } else {
      assert (a + b)[1..] == a[1..] + b;
      FlattenAppend(a[1..], b);
    }
  }
}
