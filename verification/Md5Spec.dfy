// The MD5 message digest as RFC 1321 defines it: padding (sections 3.1 and 3.2), the
// table-driven block function (section 3.4) and the output (section 3.5).
module Md5Spec {
  import opened Words

  type word = uint32

  datatype State = State(a: word, b: word, c: word, d: word)

  // The four auxiliary functions in the form the RFC gives them, on the bits of a word.
  function F(x: word, y: word, z: word): word {
    var u, v, w := x as bv32, y as bv32, z as bv32;
    ((u & v) | (!u & w)) as int
  }

  function G(x: word, y: word, z: word): word {
    var u, v, w := x as bv32, y as bv32, z as bv32;
    ((u & w) | (v & !w)) as int
  }

  function H(x: word, y: word, z: word): word {
    ((x as bv32) ^ (y as bv32) ^ (z as bv32)) as int
  }

  function I(x: word, y: word, z: word): word {
    ((y as bv32) ^ ((x as bv32) | !(z as bv32))) as int
  }

  /** Addition modulo 2^32. */
  function Plus(x: word, y: word): word { (x + y) % 0x1_0000_0000 }

  function RotL(x: word, s: nat): word
    requires s <= 32
  {
    (((x as bv32) << s) | ((x as bv32) >> (32 - s))) as int
  }

  // Step i (0 to 63) mixes message word Index(i), table entry T(i) and rotates by Shift(i).
  function Index(i: nat): (k: nat)
    ensures k < 16
  {
    if i < 16 then i % 16
    else if i < 32 then (5 * i + 1) % 16
    else if i < 48 then (3 * i + 5) % 16
    else (7 * i) % 16
  }

  function Shift(i: nat): (s: nat)
    ensures s <= 32
  {
    var j := i % 4;
    if i < 16 then (if j == 0 then 7 else if j == 1 then 12 else if j == 2 then 17 else 22)
    else if i < 32 then (if j == 0 then 5 else if j == 1 then 9 else if j == 2 then 14 else 20)
    else if i < 48 then (if j == 0 then 4 else if j == 1 then 11 else if j == 2 then 16 else 23)
    else (if j == 0 then 6 else if j == 1 then 10 else if j == 2 then 15 else 21)
  }

  function T1(j: nat): word {
    match j
    case 0 => 0xd76aa478 case 1 => 0xe8c7b756 case 2 => 0x242070db case 3 => 0xc1bdceee
    case 4 => 0xf57c0faf case 5 => 0x4787c62a case 6 => 0xa8304613 case 7 => 0xfd469501
    case 8 => 0x698098d8 case 9 => 0x8b44f7af case 10 => 0xffff5bb1 case 11 => 0x895cd7be
    case 12 => 0x6b901122 case 13 => 0xfd987193 case 14 => 0xa679438e case _ => 0x49b40821
  }

  function T2(j: nat): word {
    match j
    case 0 => 0xf61e2562 case 1 => 0xc040b340 case 2 => 0x265e5a51 case 3 => 0xe9b6c7aa
    case 4 => 0xd62f105d case 5 => 0x02441453 case 6 => 0xd8a1e681 case 7 => 0xe7d3fbc8
    case 8 => 0x21e1cde6 case 9 => 0xc33707d6 case 10 => 0xf4d50d87 case 11 => 0x455a14ed
    case 12 => 0xa9e3e905 case 13 => 0xfcefa3f8 case 14 => 0x676f02d9 case _ => 0x8d2a4c8a
  }

  function T3(j: nat): word {
    match j
    case 0 => 0xfffa3942 case 1 => 0x8771f681 case 2 => 0x6d9d6122 case 3 => 0xfde5380c
    case 4 => 0xa4beea44 case 5 => 0x4bdecfa9 case 6 => 0xf6bb4b60 case 7 => 0xbebfbc70
    case 8 => 0x289b7ec6 case 9 => 0xeaa127fa case 10 => 0xd4ef3085 case 11 => 0x04881d05
    case 12 => 0xd9d4d039 case 13 => 0xe6db99e5 case 14 => 0x1fa27cf8 case _ => 0xc4ac5665
  }

  function T4(j: nat): word {
    match j
    case 0 => 0xf4292244 case 1 => 0x432aff97 case 2 => 0xab9423a7 case 3 => 0xfc93a039
    case 4 => 0x655b59c3 case 5 => 0x8f0ccc92 case 6 => 0xffeff47d case 7 => 0x85845dd1
    case 8 => 0x6fa87e4f case 9 => 0xfe2ce6e0 case 10 => 0xa3014314 case 11 => 0x4e0811a1
    case 12 => 0xf7537e82 case 13 => 0xbd3af235 case 14 => 0x2ad7d2bb case _ => 0xeb86d391
  }

  function T(i: nat): word {
    if i < 16 then T1(i) else if i < 32 then T2(i - 16) else if i < 48 then T3(i - 32) else T4(i - 48)
  }

  function Aux(i: nat, x: word, y: word, z: word): word {
    if i < 16 then F(x, y, z) else if i < 32 then G(x, y, z) else if i < 48 then H(x, y, z) else I(x, y, z)
  }

  /** Message word k. */
  function In(x: seq<word>, k: nat): word {
    if k < |x| then x[k] else 0
  }

  /** One operation: a is replaced and the four registers change roles. */
  function Step(i: nat, s: State, x: seq<word>): State
  {
    var sum := Plus(Plus(Plus(s.a, Aux(i, s.b, s.c, s.d)), In(x, Index(i))), T(i));
    State(s.d, Plus(s.b, RotL(sum, Shift(i))), s.b, s.c)
  }

  function Steps(n: nat, s: State, x: seq<word>): State
  {
    if n == 0 then s else Step(n - 1, Steps(n - 1, s, x), x)
  }

  function Add(s: State, t: State): State {
    State(Plus(s.a, t.a), Plus(s.b, t.b), Plus(s.c, t.c), Plus(s.d, t.d))
  }

  /** The block function on sixteen message words. */
  function Compress(s: State, x: seq<word>): State
    requires |x| == 16
  {
    Add(s, Steps(64, s, x))
  }

  /** Four bytes as a word, low-order byte first. */
  function Word(b: seq<byte>): word
    requires |b| == 4
  {
    b[0] + 0x100 * (b[1] as int) + 0x1_0000 * (b[2] as int) + 0x100_0000 * (b[3] as int)
  }

  function BlockWords(block: seq<byte>): (x: seq<word>)
    requires |block| == 64
    ensures |x| == 16
  {
    seq(16, i requires 0 <= i < 16 => Word(block[4 * i..4 * i + 4]))
  }

  const INITIAL: State := State(0x67452301, 0xefcdab89, 0x98badcfe, 0x10325476)

  /** The block function folded over a whole number of blocks. */
  function Absorb(m: seq<byte>): State {
    if |m| < 64 then INITIAL
    else Compress(Absorb(m[..|m| - 64]), BlockWords(m[|m| - 64..]))
  }

  /** A one bit, zeros up to 56 modulo 64, then the length in bits modulo 2^64. */
  function Pad(m: seq<byte>): seq<byte> {
    var bits := 8 * |m| % 0x1_0000_0000_0000_0000;
    m + [0x80] + Zeros((55 - |m|) % 64) + Bytes32(bits % 0x1_0000_0000) + Bytes32(bits / 0x1_0000_0000)
  }

  function Output(s: State): (d: seq<byte>)
    ensures |d| == 16
  {
    Bytes32(s.a) + Bytes32(s.b) + Bytes32(s.c) + Bytes32(s.d)
  }

  function Digest(m: seq<byte>): (d: seq<byte>)
    ensures |d| == 16
  {
    Output(Absorb(Pad(m)))
  }
}
