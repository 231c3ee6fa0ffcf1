/** Java's fixed-width integer types and the big-endian byte layout that
    java.nio.ByteBuffer uses. Bytes travel as octets (their bit pattern,
    0..255); the Java-typed values an API hands out are signed. */
module JavaTypes {

  type Octet = x: int | 0 <= x < 256
  type JByte = x: int | -128 <= x < 128
  type JShort = x: int | -32768 <= x < 32768
  type JInt = x: int | -0x8000_0000 <= x < 0x8000_0000

  datatype Option<+T> = None | Some(value: T)

  /** Bit `k` of a non-negative number, bit 0 being the least significant. */
  function Bit(u: nat, k: nat): bool
  {
    if k == 0 then u % 2 == 1 else Bit(u / 2, k - 1)
  }

  function Pow2(k: nat): (p: nat)
    ensures p >= 1
  {
    if k == 0 then 1 else 2 * Pow2(k - 1)
  }

  /** A narrowing cast `(short) x`: keeps the low 16 bits, two's complement. */
  function ToShort(x: int): (r: JShort)
    ensures (r - x) % 0x1_0000 == 0
    ensures r % 0x1_0000 == x % 0x1_0000
    ensures -32768 <= x < 32768 ==> r == x
  {
    var u := x % 0x1_0000;
    if u < 0x8000 then u else u - 0x1_0000
  }

  /** The signed value of an octet, as a Java `byte` holds it. */
  function Signed8(b: Octet): (r: JByte)
    ensures r % 256 == b
    ensures r < 0 <==> b >= 0x80
  {
    if b < 0x80 then b else b - 256
  }

  /** The octet a Java `byte` is stored as. */
  function Unsigned8(b: JByte): (r: Octet)
    ensures Signed8(r) == b
  {
    b % 256
  }

  /** The value of two octets read most significant first. */
  function Be16(hi: Octet, lo: Octet): (r: nat)
    ensures r < 0x1_0000
  {
    hi as int * 256 + lo as int
  }

  /** Two octets, most significant first, holding an unsigned 16-bit value. */
  function U16Bytes(u: nat): (r: seq<Octet>)
    requires u < 0x1_0000
    ensures |r| == 2 && Be16(r[0], r[1]) == u
  {
    [u / 256, u % 256]
  }

  /** `putShort`: two octets, most significant first. */
  function ShortBytes(s: JShort): (r: seq<Octet>)
    ensures |r| == 2 && Be16(r[0], r[1]) == s % 0x1_0000
  {
    U16Bytes(s % 0x1_0000)
  }

  /** `putShort((short) x)` writes the two octets of x modulo 2^16. */
  lemma ShortBytesOfInt(x: int)
    ensures ShortBytes(ToShort(x)) == U16Bytes(x % 0x1_0000)
  {
  }

  /** `getShort`: reads two octets, most significant first, as a signed short. */
  function ShortOf(hi: Octet, lo: Octet): (r: JShort)
    ensures r % 0x1_0000 == Be16(hi, lo)
  {
    ToShort(Be16(hi, lo))
  }

  /** `putInt`: four octets, most significant first. */
  function IntBytes(i: JInt): (r: seq<Octet>)
    ensures |r| == 4
    ensures Be16(r[0], r[1]) * 0x1_0000 + Be16(r[2], r[3]) == i % 0x1_0000_0000
  {
    var u := i % 0x1_0000_0000;
    U16Bytes(u / 0x1_0000) + U16Bytes(u % 0x1_0000)
  }

  /** `getInt`: reads four octets, most significant first, as a signed int. */
  function IntOf(b0: Octet, b1: Octet, b2: Octet, b3: Octet): (r: JInt)
    ensures r % 0x1_0000_0000 == Be16(b0, b1) * 0x1_0000 + Be16(b2, b3)
  {
    var u := Be16(b0, b1) * 0x1_0000 + Be16(b2, b3);
    if u < 0x8000_0000 then u else u - 0x1_0000_0000
  }

  lemma {:induction false} ShortRoundTrip(s: JShort)
    ensures ShortOf(ShortBytes(s)[0], ShortBytes(s)[1]) == s
  {
    var b := ShortBytes(s);
    assert (ShortOf(b[0], b[1]) - s) % 0x1_0000 == 0;
  }

  /** Two Java ints with the same 32 bits are equal. */
  lemma SameLow32(a: JInt, b: JInt)
    requires a % 0x1_0000_0000 == b % 0x1_0000_0000
    ensures a == b
  {
    if a >= 0 { assert a % 0x1_0000_0000 == a; } else { assert a % 0x1_0000_0000 == a + 0x1_0000_0000; }
    if b >= 0 { assert b % 0x1_0000_0000 == b; } else { assert b % 0x1_0000_0000 == b + 0x1_0000_0000; }
  }

  lemma {:induction false} IntRoundTrip(i: JInt)
    ensures var b := IntBytes(i); IntOf(b[0], b[1], b[2], b[3]) == i
  {
    var b := IntBytes(i);
    SameLow32(IntOf(b[0], b[1], b[2], b[3]), i);
  }
}
