// Fixed-width words and byte order on the little-endian host the model assumes.
module Words {

  datatype Option<T> = None | Some(value: T)

  type byte = x: int | 0 <= x < 0x100
  type uint16 = x: int | 0 <= x < 0x1_0000
  type uint32 = x: int | 0 <= x < 0x1_0000_0000
  type int64 = x: int | -0x8000_0000_0000_0000 <= x < 0x8000_0000_0000_0000
  type uint64 = x: int | 0 <= x < 0x1_0000_0000_0000_0000

  /** The conversion from a wider integer to uint16_t. */
  function U16(x: int): uint16 {
    x % 0x1_0000
  }

  /** Two bytes of memory read as a native (little-endian) uint16_t. */
  function Native16(lo: byte, hi: byte): uint16 {
    lo + 0x100 * hi
  }

  /** Two bytes of memory read in network (big-endian) order. */
  function Network16(first: byte, second: byte): uint16 {
    0x100 * first + second
  }

  /** htons and ntohs: exchange the two bytes of a value. */
  function Swap16(x: uint16): uint16 {
    Native16(x / 0x100, x % 0x100)
  }

  function Zeros(n: nat): (z: seq<byte>)
    ensures |z| == n && forall i | 0 <= i < n :: z[i] == 0
  {
    seq(n, _ => 0)
  }

  /** The four bytes of a 32-bit value, low-order byte first. */
  function Bytes32(x: uint32): (s: seq<byte>)
    ensures |s| == 4
  {
    [x % 0x100, x / 0x100 % 0x100, x / 0x1_0000 % 0x100, x / 0x100_0000]
  }

  // ---------- Wider numbers in memory ----------

  /** A number in n bytes, low-order byte first. */
  function Little(x: nat, n: nat): (s: seq<byte>)
    ensures |s| == n
  {
    if n == 0 then [] else [x % 0x100] + Little(x / 0x100, n - 1)
  }

  function FromLittle(s: seq<byte>): nat {
    if |s| == 0 then 0 else s[0] + 0x100 * FromLittle(s[1..])
  }

  /** What n bytes can hold. */
  function Capacity(n: nat): nat {
    if n == 0 then 1 else 0x100 * Capacity(n - 1)
  }

  lemma {:induction false} LittleRead(x: nat, n: nat)
    requires x < Capacity(n)
    ensures FromLittle(Little(x, n)) == x
  {
    if n > 0 {
      assert x / 0x100 < Capacity(n - 1);
      LittleRead(x / 0x100, n - 1);
      assert Little(x, n)[1..] == Little(x / 0x100, n - 1);
    }
  }

  lemma {:induction false} LittleBelow(s: seq<byte>)
    ensures FromLittle(s) < Capacity(|s|)
  {
    if |s| > 0 {
      LittleBelow(s[1..]);
    }
  }

  lemma EightBytes()
    ensures Capacity(8) == 0x1_0000_0000_0000_0000
  {
    assert Capacity(4) == 0x1_0000_0000;
  }

  /** A signed 64-bit number in memory, in two's complement. */
  function Bytes64(x: int64): (s: seq<byte>)
    ensures |s| == 8
  {
    Little(if x < 0 then x + 0x1_0000_0000_0000_0000 else x, 8)
  }

  function Signed64(s: seq<byte>): int64
    requires |s| == 8
  {
    LittleBelow(s);
    EightBytes();
    var x := FromLittle(s);
    if x < 0x8000_0000_0000_0000 then x else x - 0x1_0000_0000_0000_0000
  }

  lemma SignedRead(x: int64)
    ensures Signed64(Bytes64(x)) == x
  {
    EightBytes();
    LittleRead(if x < 0 then x + 0x1_0000_0000_0000_0000 else x, 8);
    hide Little, FromLittle, Capacity;
  }

  /** Integer division as in C, towards zero. */
  function DivC(x: int, d: int): int
    requires d > 0
  {
    if x >= 0 then x / d else -(-x / d)
  }

  lemma MultipleGrows(d: nat, k: int)
    ensures k >= 1 ==> d * k >= d
    ensures k <= -1 ==> d * k <= 0 - d
  {
    if k >= 1 {
      assert d * k == d + d * (k - 1);
    } else if k <= -1 {
      assert d * k == d * (k + 1) - d;
    }
  }

  /** Quotient and remainder are unique. */
  lemma DivMod(x: int, d: int, q: int, r: int)
    requires x == d * q + r && 0 <= r < d
    ensures x / d == q && x % d == r
  {
    var k := x / d - q;
    assert d * k == d * (x / d) - d * q;
    MultipleGrows(d, k);
  }

  /** memcpy of a byte string into a buffer. */
  method CopyInto(dst: array<byte>, at: nat, src: seq<byte>)
    requires at + |src| <= dst.Length
    modifies dst
    ensures dst[..at] == old(dst[..at])
    ensures dst[at..at + |src|] == src
    ensures dst[at + |src|..] == old(dst[at + |src|..])
  {
    forall i | 0 <= i < |src| {
      dst[at + i] := src[i];
    }
  }
}
