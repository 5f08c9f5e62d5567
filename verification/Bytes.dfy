/** Machine words and their byte images in the byte order of the host. */
module Bytes {
  type byte = x: int | 0 <= x < 0x100
  type u16 = x: int | 0 <= x < 0x1_0000
  type u32 = x: int | 0 <= x < 0x1_0000_0000
  type u64 = x: int | 0 <= x < 0x1_0000_0000_0000_0000
  type i32 = x: int | -0x8000_0000 <= x < 0x8000_0000

  /** A file descriptor, `fd_t`. */
  type Fd = i32

  const USIZE_MAX: nat := 0xffff_ffff_ffff_ffff
  const U32_MAX: nat := 0xffff_ffff

  datatype ByteOrder = Little | Big

  /** The byte order the runtime is compiled for. It has no value here, so every
      result below holds on little-endian and on big-endian hosts. */
  const NATIVE: ByteOrder

  /** Horner form of four digits in base 256, least significant first. */
  function Word(a: int, b: int, c: int, d: int): int {
    a + 0x100 * (b + 0x100 * (c + 0x100 * d))
  }

  function ReadU32(b: seq<byte>): (v: u32)
    requires |b| == 4
  {
    if NATIVE.Little? then Word(b[0], b[1], b[2], b[3]) else Word(b[3], b[2], b[1], b[0])
  }

  function WriteU32(v: u32): (b: seq<byte>)
    ensures |b| == 4
  {
    var a := v / 0x100;
    var c := a / 0x100;
    var digits: seq<byte> := [v % 0x100, a % 0x100, c % 0x100, c / 0x100];
    if NATIVE.Little? then digits else [digits[3], digits[2], digits[1], digits[0]]
  }

  lemma ReadWriteU32(v: u32)
    ensures ReadU32(WriteU32(v)) == v
  {
    var a := v / 0x100;
    var c := a / 0x100;
    assert v == v % 0x100 + 0x100 * a;
    assert a == a % 0x100 + 0x100 * c;
    assert c == c % 0x100 + 0x100 * (c / 0x100);
    assert Word(v % 0x100, a % 0x100, c % 0x100, c / 0x100) == v;
  }

  /** Reads a 64-bit word as two 32-bit halves. */
  function ReadU64(b: seq<byte>): (v: u64)
    requires |b| == 8
  {
    var first, second := ReadU32(b[..4]), ReadU32(b[4..]);
    if NATIVE.Little? then first + 0x1_0000_0000 * second else second + 0x1_0000_0000 * first
  }

  function WriteU64(v: u64): (b: seq<byte>)
    ensures |b| == 8
  {
    var low, high := WriteU32(v % 0x1_0000_0000), WriteU32(v / 0x1_0000_0000);
    if NATIVE.Little? then low + high else high + low
  }

  lemma ReadWriteU64(v: u64)
    ensures ReadU64(WriteU64(v)) == v
  {
    var low, high := v % 0x1_0000_0000, v / 0x1_0000_0000;
    ReadWriteU32(low);
    ReadWriteU32(high);
    var b := WriteU64(v);
    if NATIVE.Little? {
      assert b[..4] == WriteU32(low) && b[4..] == WriteU32(high);
    } else {
      assert b[..4] == WriteU32(high) && b[4..] == WriteU32(low);
    }
  }

  /** Two's-complement reinterpretation of a signed word, `@bitCast` in both directions. */
  function ToUnsigned(v: i32): u32 {
    if v < 0 then v + 0x1_0000_0000 else v
  }

  function ToSigned(v: u32): i32 {
    if v < 0x8000_0000 then v else v - 0x1_0000_0000
  }

  /** `(n + 3) & ~3`: the padding of wire strings and arrays. */
  function Align4(n: nat): (r: nat)
    ensures n <= r < n + 4
  {
    var extra := n % 4;
    if extra == 0 then n else n - extra + 4
  }

  lemma Align4IsAligned(n: nat)
    ensures Align4(n) % 4 == 0 && Align4(n) == (n + 3) / 4 * 4 == n + (4 - n % 4) % 4
  {}

  /** `alignForward(n, 8)`: the padding of control records. */
  function Align8(n: nat): (r: nat)
    ensures n <= r < n + 8
  {
    var extra := n % 8;
    if extra == 0 then n else n - extra + 8
  }

  /** A buffer of `n` zero bytes. */
  function Zeros(n: nat): (z: seq<byte>)
    ensures |z| == n
  {
    seq(n, _ => 0)
  }
}
