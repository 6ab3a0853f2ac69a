// The streaming MD5 of md5.c: a context that takes a message in arbitrary chunks.
module Md5 {
  import opened Words
  import opened Md5Spec
  import opened Md5Transform

  lemma AbsorbOne(m: seq<byte>, block: seq<byte>)
    requires |block| == 64
    ensures Absorb(m + block) == Compress(Absorb(m), BlockWords(block))
  {
    var s := m + block;
    assert s[..|s| - 64] == m && s[|s| - 64..] == block;
  }

  // The two words of the bit counter for a message of n bytes.
  function Low(n: nat): uint32 { 8 * (n % 0x2000_0000) }
  function High(n: nat): uint32 { n / 0x2000_0000 % 0x1_0000_0000 }

  /** Together they are the RFC's 64-bit length, modulo 2^64. */
  lemma CountIsLength(n: nat)
    ensures var bits := 8 * n % 0x1_0000_0000_0000_0000;
            bits % 0x1_0000_0000 == Low(n) && bits / 0x1_0000_0000 == High(n)
  {
    var m := 0x1_0000_0000;
    var q := n / 0x2000_0000;
    assert 8 * n == m * q + Low(n);
    assert m * q == m * m * (q / m) + m * High(n);
    DivMod(8 * n, 0x1_0000_0000_0000_0000, q / m, m * High(n) + Low(n));
    DivMod(m * High(n) + Low(n), m, High(n), Low(n));
  }

  /** The carry out of the low word and the high part of the length keep the counter exact. */
  lemma CountAdvances(n: nat, len: uint32)
    ensures var low := (Low(n) + len * 8 % 0x1_0000_0000) % 0x1_0000_0000;
            var carried := (if low < Low(n) then High(n) + 1 else High(n)) % 0x1_0000_0000;
            low == Low(n + len) && (carried + len / 0x2000_0000) % 0x1_0000_0000 == High(n + len)
  {
    var l, m := 0x2000_0000, 0x1_0000_0000;
    var q, r, u, v := n / l, n % l, len / l, len % l;
    DivMod(8 * len, m, u, 8 * v);
    var carry := if r + v >= l then 1 else 0;
    DivMod(n + len, l, q + u + carry, r + v - l * carry);
    DivMod(8 * r + 8 * v, m, carry, 8 * (r + v - l * carry));
    HighSum(q, carry, u);
  }

  lemma HighSum(q: nat, carry: nat, u: nat)
    ensures ((q % 0x1_0000_0000 + carry) % 0x1_0000_0000 + u) % 0x1_0000_0000 == (q + u + carry) % 0x1_0000_0000
  {
  }

  /** The low counter word gives the number of bytes waiting in the buffer. */
  lemma Waiting(n: nat, done: nat)
    requires done % 64 == 0 && done <= n < done + 64
    ensures Low(n) / 8 % 64 == n - done
  {
    DivMod(n, 64, done / 64, n - done);
    var l := 0x2000_0000;
    var k := n / l * 0x80_0000;
    assert n == 64 * k + n % l;
    DivMod(n, 64, k + n % l / 64, n % l % 64);
  }

  lemma Regroup(a: seq<byte>, s: seq<byte>, n: nat)
    requires n <= |s|
    ensures a + s[..n] + s[n..] == a + s
  {
  }

  lemma Joined(a: seq<byte>, kept: seq<byte>, s: seq<byte>, n: nat)
    requires n <= |s|
    ensures a + (kept + s[..n]) + s[n..] == a + kept + s
  {
  }

  lemma PadLength(n: nat, done: nat)
    requires done % 64 == 0 && done <= n < done + 64
    ensures (55 - n) % 64 == if n - done <= 55 then 55 - (n - done) else 119 - (n - done)
  {
    if n - done <= 55 {
      DivMod(55 - n, 64, -(done / 64), 55 - (n - done));
    } else {
      DivMod(55 - n, 64, -(done / 64) - 1, 119 - (n - done));
    }
  }

  lemma PaddedOnce(a: seq<byte>, head: seq<byte>, m: seq<byte>, i: nat)
    requires a + head == m + [0x80]
    ensures a + (head + Zeros(i)) == m + [0x80] + Zeros(i)
  {
    assert a + (head + Zeros(i)) == a + head + Zeros(i);
  }

  lemma PaddedTwice(a: seq<byte>, head: seq<byte>, m: seq<byte>, i: nat, j: nat)
    requires a + head == m + [0x80]
    ensures a + (head + Zeros(i)) + Zeros(j) == m + [0x80] + Zeros(i + j)
  {
    PaddedOnce(a, head, m, i);
    assert Zeros(i) + Zeros(j) == Zeros(i + j);
    assert m + [0x80] + Zeros(i) + Zeros(j) == m + [0x80] + (Zeros(i) + Zeros(j));
  }

  lemma PaddingTail(m: seq<byte>, done: seq<byte>, block: seq<byte>, k: nat)
    requires k == (55 - |m|) % 64 && done + block == m + [0x80] + Zeros(k)
    ensures done + (block + Bytes32(Low(|m|)) + Bytes32(High(|m|))) == Pad(m)
  {
    CountIsLength(|m|);
    hide Low, High;
  }

  class Md5Context {
    const buf: array<word>         // the four chaining registers
    var bits0: uint32              // message length in bits, low word
    var bits1: uint32              // and high word
    const inp: array<byte>         // the incomplete block
    ghost var fed: seq<byte>       // everything handed to Update since Init
    ghost var absorbed: seq<byte>  // the complete blocks of it

    ghost predicate Shaped() {
      buf.Length == 4 && inp.Length == 64 && buf as object != inp as object
    }

    ghost function Regs(): State
      requires Shaped()
      reads buf
    {
      State(buf[0], buf[1], buf[2], buf[3])
    }

    ghost predicate Valid()
      reads this, buf, inp
    {
      && Shaped()
      && |absorbed| % 64 == 0 && |absorbed| <= |fed| < |absorbed| + 64
      && Regs() == Absorb(absorbed)
      && fed == absorbed + inp[..|fed| - |absorbed|]
      && bits0 == Low(|fed|) && bits1 == High(|fed|)
    }

    constructor ()
      ensures Valid() && fed == [] && fresh(buf) && fresh(inp)
    {
      hide Compress;
      buf := new word[] [0x67452301, 0xefcdab89, 0x98badcfe, 0x10325476];
      inp := new byte[64];
      bits0, bits1, fed, absorbed := 0, 0, [], [];
    }

    /** iputils_MD5Transform on the 64 buffered bytes read as sixteen native words. */
    method Block()
      requires Shaped() && Regs() == Absorb(absorbed)
      modifies buf, `absorbed
      ensures absorbed == old(absorbed) + inp[..] && Regs() == Absorb(absorbed) && inp[..] == old(inp[..])
    {
      hide Compress, Absorb, BlockWords;
      Transform(buf, BlockWords(inp[..]));
      AbsorbOne(absorbed, inp[..]);
      absorbed := absorbed + inp[..];
    }

    /** The bit count for len more bytes. */
    method Count(len: uint32, ghost n: nat)
      requires bits0 == Low(n) && bits1 == High(n)
      modifies `bits0, `bits1
      ensures bits0 == Low(n + len) && bits1 == High(n + len)
    {
      hide Low, High;
      CountAdvances(n, len);
      var t := bits0;
      bits0 := (t + len * 8 % 0x1_0000_0000) % 0x1_0000_0000;
      if bits0 < t {
        bits1 := (bits1 + 1) % 0x1_0000_0000;
      }
      bits1 := (bits1 + len / 0x2000_0000) % 0x1_0000_0000;
    }

    method Update(data: seq<byte>)
      requires Valid() && |data| < 0x1_0000_0000
      modifies this, buf, inp
      ensures Valid() && fed == old(fed) + data
    {
      hide Absorb, Low, High, Md5Context.Regs, Compress, BlockWords;
      Waiting(|fed|, |absorbed|);
      var t := bits0 / 8 % 64;
      Count(|data|, |fed|);
      fed := fed + data;
      var rest := data;
      if t != 0 {
        var room := 64 - t;
        if |data| < room {
          CopyInto(inp, t, data);
          assert inp[..t + |data|] == inp[..t] + data;
          return;
        }
        rest := TopUp(t, data);
      } else {
        assert inp[..t] == [];
      }
      rest := WholeBlocks(rest);
      CopyInto(inp, 0, rest);
      assert inp[..|rest|] == rest;
    }

    /** Completes a partly filled block and absorbs it. */
    method TopUp(t: nat, data: seq<byte>) returns (rest: seq<byte>)
      requires Shaped() && Regs() == Absorb(absorbed)
      requires 0 < t < 64 <= t + |data| && fed == absorbed + inp[..t] + data
      modifies buf, inp, `absorbed
      ensures |absorbed| == old(|absorbed|) + 64 && Regs() == Absorb(absorbed) && fed == absorbed + rest
    {
      hide Absorb;
      var room := 64 - t;
      CopyInto(inp, t, data[..room]);
      assert inp[..] == inp[..t] + inp[t..64];
      Joined(absorbed, inp[..t], data, room);
      Block();
      rest := data[room..];
    }

    /** Absorbs the whole blocks at the head of the remaining data. */
    method WholeBlocks(data: seq<byte>) returns (rest: seq<byte>)
      requires Shaped() && Regs() == Absorb(absorbed)
      requires |absorbed| % 64 == 0 && fed == absorbed + data
      modifies buf, inp, `absorbed
      ensures |absorbed| % 64 == 0 && Regs() == Absorb(absorbed) && fed == absorbed + rest && |rest| < 64
    {
      hide Absorb;
      rest := data;
      while |rest| >= 64
        invariant |absorbed| % 64 == 0 && Regs() == Absorb(absorbed) && fed == absorbed + rest
      {
        CopyInto(inp, 0, rest[..64]);
        assert inp[..] == inp[0..64];
        Regroup(absorbed, rest, 64);
        Block();
        rest := rest[64..];
      }
    }

    /** The padding bytes: 0x80, then zeros up to 56 modulo 64, through a second block when needed. */
    method PadTo56()
      requires Valid()
      modifies buf, inp, `absorbed
      ensures Regs() == Absorb(absorbed)
      ensures absorbed + inp[..56] == fed + [0x80] + Zeros((55 - |fed|) % 64)
    {
      hide Absorb, Low, High, Md5Context.Regs, Compress, BlockWords;
      Waiting(|fed|, |absorbed|);
      var count := bits0 / 8 % 64;
      inp[count] := 0x80;
      var p := count + 1;
      count := 64 - 1 - count;
      ghost var head := inp[..p];
      assert head == old(inp[..p - 1]) + [0x80] && absorbed + head == fed + [0x80];
      PadLength(|fed|, |absorbed|);
      if count < 8 {
        CopyInto(inp, p, Zeros(count));
        assert inp[..] == head + inp[p..p + count];
        Block();
        CopyInto(inp, 0, Zeros(56));
        assert inp[..56] == inp[0..56];
        PaddedTwice(old(absorbed), head, fed, count, 56);
      } else {
        CopyInto(inp, p, Zeros(count - 8));
        assert inp[..56] == head + inp[p..p + (count - 8)];
        PaddedOnce(absorbed, head, fed, count - 8);
      }
    }

    /** Pads, absorbs the last one or two blocks, delivers the digest and wipes the context. */
    method Final(digest: array<byte>)
      requires Valid() && digest.Length == 16 && digest != inp && digest as object != buf as object
      modifies this, buf, inp, digest
      ensures digest[..] == Digest(old(fed))
      ensures Shaped() && Regs() == State(0, 0, 0, 0) && bits0 == bits1 == 0 && inp[..] == Zeros(64)
    {
      hide Absorb, Low, High, Output, Pad, Bytes32;
      PadTo56();
      ghost var block := inp[..56];
      CopyInto(inp, 56, Bytes32(bits0));
      assert inp[..60] == inp[..56] + inp[56..60];
      CopyInto(inp, 60, Bytes32(bits1));
      assert inp[..] == inp[..60] + inp[60..64];
      PaddingTail(fed, absorbed, block, (55 - |fed|) % 64);
      Block();
      CopyInto(digest, 0, Output(State(buf[0], buf[1], buf[2], buf[3])));
      assert digest[..] == digest[0..16];
      Wipe();
    }

    method Wipe()
      requires Shaped()
      modifies this, buf, inp
      ensures Regs() == State(0, 0, 0, 0) && bits0 == bits1 == 0 && inp[..] == Zeros(64)
    {
      buf[0], buf[1], buf[2], buf[3] := 0, 0, 0, 0;
      bits0, bits1 := 0, 0;
      CopyInto(inp, 0, Zeros(64));
      assert inp[..] == inp[0..64];
    }
  }

  function Concat(chunks: seq<seq<byte>>): seq<byte> {
    if |chunks| == 0 then [] else Concat(chunks[..|chunks| - 1]) + chunks[|chunks| - 1]
  }

  /** However a message is cut into chunks, feeding them in order gives the digest of the whole. */
  method DigestChunks(chunks: seq<seq<byte>>) returns (d: seq<byte>)
    requires forall i | 0 <= i < |chunks| :: |chunks[i]| < 0x1_0000_0000
    ensures d == Digest(Concat(chunks))
  {
    var context := new Md5Context();
    for i := 0 to |chunks|
      invariant context.Valid() && fresh(context) && fresh(context.buf) && fresh(context.inp)
      invariant context.fed == Concat(chunks[..i])
    {
      context.Update(chunks[i]);
      assert chunks[..i + 1][..i] == chunks[..i];
    }
    assert chunks[..|chunks|] == chunks;
    var digest := new byte[16];
    context.Final(digest);
    d := digest[..];
  }
}
