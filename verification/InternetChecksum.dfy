// The Internet checksum of RFC 1071 and its two implementations: the deferred-carry sum of ping.c
// and the end-around-carry sum of clockdiff.c.
module InternetChecksum {
  import opened Words

  type int32 = x: int | -0x8000_0000 <= x < 0x8000_0000

  // ---------- RFC 1071 ----------

  /** Adjacent octets paired to 16-bit words as this host reads them, an odd last octet padded. */
  function NativeWords(s: seq<byte>): seq<uint16> {
    if |s| == 0 then []
    else if |s| == 1 then [Native16(s[0], 0)]
    else [Native16(s[0], s[1])] + NativeWords(s[2..])
  }

  /** The same in network order, as the RFC defines the checksum (section 1). */
  function NetworkWords(s: seq<byte>): seq<uint16> {
    if |s| == 0 then []
    else if |s| == 1 then [Network16(s[0], 0)]
    else [Network16(s[0], s[1])] + NetworkWords(s[2..])
  }

  /** One's complement addition. */
  function OnesAdd(x: uint16, y: uint16): uint16 {
    if x + y < 0x1_0000 then x + y else x + y - 0xFFFF
  }

  function OnesSum(ws: seq<uint16>): uint16 {
    if |ws| == 0 then 0 else OnesAdd(OnesSum(ws[..|ws| - 1]), ws[|ws| - 1])
  }

  /** The checksum of a byte string as a native 16-bit value. */
  function Checksum(s: seq<byte>): uint16 {
    0xFFFF - OnesSum(NativeWords(s))
  }

  // ---------- Sums modulo 65535 ----------

  function Total(ws: seq<uint16>): nat {
    if |ws| == 0 then 0 else Total(ws[..|ws| - 1]) + ws[|ws| - 1]
  }

  /** The representative of a sum in one's complement: 0 only for 0, otherwise 1 to 65535. */
  function Canon(x: nat): uint16 {
    if x == 0 then 0 else (x - 1) % 0xFFFF + 1
  }

  lemma CanonIs(x: nat, k: nat, r: uint16)
    requires x == 0xFFFF * k + r && (r > 0 || k == 0)
    ensures Canon(x) == r
  {
    if x > 0 {
      DivMod(x - 1, 0xFFFF, k, r - 1);
    }
  }

  lemma CanonParts(x: nat) returns (k: nat)
    ensures x == 0xFFFF * k + Canon(x) && (Canon(x) == 0 <==> x == 0)
  {
    k := if x == 0 then 0 else (x - 1) / 0xFFFF;
  }

  lemma CanonAbsorbs(x: nat, y: nat)
    ensures Canon(Canon(x) + y) == Canon(x + y)
  {
    var k := CanonParts(x);
    var j := CanonParts(Canon(x) + y);
    CanonIs(x + y, k + j, Canon(Canon(x) + y));
  }

  /** Deferring all the carries does not change a one's complement sum. */
  lemma {:induction false} OnesSumIsCanon(ws: seq<uint16>)
    ensures OnesSum(ws) == Canon(Total(ws))
  {
    if |ws| > 0 {
      var before, w := ws[..|ws| - 1], ws[|ws| - 1];
      OnesSumIsCanon(before);
      var x: int := OnesSum(before);
      CanonAbsorbs(Total(before), w);
      if x + w < 0x1_0000 { CanonIs(x + w, 0, x + w); } else { CanonIs(x + w, 1, x + w - 0xFFFF); }
    }
  }

  /** Adding the complement of a sum always gives the all-ones word, also when the sum is 0. */
  lemma ComplementCancels(x: nat)
    ensures Canon(x + (0xFFFF - Canon(x))) == 0xFFFF
  {
    var k := CanonParts(x);
    CanonIs(x + (0xFFFF - Canon(x)), k, 0xFFFF);
  }

  /** Two folds of the upper half into the lower are enough for any 31-bit sum. */
  lemma TwoFolds(sum: nat)
    requires sum < 0x8000_0000
    ensures var once := sum / 0x1_0000 + sum % 0x1_0000;
            U16(once + once / 0x1_0000) == Canon(sum)
  {
    var a, b := sum / 0x1_0000, sum % 0x1_0000;
    var once := a + b;
    if once < 0x1_0000 {
      CanonIs(sum, a, once);
      DivMod(once, 0x1_0000, 0, once);
    } else {
      CanonIs(sum, a + 1, once - 0xFFFF);
      DivMod(once, 0x1_0000, 1, once - 0x1_0000);
      DivMod(once + 1, 0x1_0000, 1, once - 0xFFFF);
    }
  }

  // ---------- Concatenation and byte order ----------

  lemma {:induction false} WordsAppend(s: seq<byte>, t: seq<byte>)
    requires |s| % 2 == 0
    ensures NativeWords(s + t) == NativeWords(s) + NativeWords(t)
  {
    if |s| == 0 {
      assert s + t == t;
    } else {
      assert (s + t)[2..] == s[2..] + t;
      WordsAppend(s[2..], t);
    }
  }

  lemma {:induction false} TotalAppend(v: seq<uint16>, w: seq<uint16>)
    ensures Total(v + w) == Total(v) + Total(w)
  {
    if |w| == 0 {
      assert v + w == v;
    } else {
      var n := |w| - 1;
      assert (v + w)[..|v| + n] == v + w[..n];
      TotalAppend(v, w[..n]);
    }
  }

  lemma SumAppend(s: seq<byte>, t: seq<byte>)
    requires |s| % 2 == 0
    ensures Total(NativeWords(s + t)) == Total(NativeWords(s)) + Total(NativeWords(t))
  {
    WordsAppend(s, t);
    TotalAppend(NativeWords(s), NativeWords(t));
  }

  /** A sum verifies when it is a positive multiple of 65535. */
  lemma Verifies(s: seq<byte>)
    ensures Checksum(s) == 0 <==> Total(NativeWords(s)) > 0 && Total(NativeWords(s)) % 0xFFFF == 0
  {
    OnesSumIsCanon(NativeWords(s));
  }

  /**
   * A change of one word of an intact message is noticed, except that of 0 to 65535 or back, which
   * are both zero in one's complement (and then only while something else is not 0).
   */
  lemma OneWordChanged(head: seq<byte>, before: seq<byte>, after: seq<byte>, tail: seq<byte>)
    requires |head| % 2 == 0 && |before| == |after| == 2 && Checksum(head + before + tail) == 0
    ensures var w, v := Native16(before[0], before[1]), Native16(after[0], after[1]);
            Checksum(head + after + tail) == 0 <==>
            w == v || (w == 0 && v == 0xFFFF) || (w == 0xFFFF && v == 0 && Total(NativeWords(head + after + tail)) > 0)
  {
    var w, v := Native16(before[0], before[1]), Native16(after[0], after[1]);
    WordBetween(head, before, tail);
    WordBetween(head, after, tail);
    Verifies(head + before + tail);
    Verifies(head + after + tail);
    hide Total, NativeWords, Checksum;
    var x, y := Total(NativeWords(head + before + tail)), Total(NativeWords(head + after + tail));
    assert y == x - w + v;
    var k := x / 0xFFFF;
    assert x == 0xFFFF * k;
    if w == 0xFFFF && v == 0 {
      DivMod(y, 0xFFFF, k - 1, 0);
    } else if v < w {
      DivMod(y, 0xFFFF, k - 1, 0xFFFF + v - w);
    } else if w < v && (w > 0 || v < 0xFFFF) {
      DivMod(y, 0xFFFF, k, v - w);
    } else if w < v {
      DivMod(y, 0xFFFF, k + 1, 0);
    }
  }

  lemma WordBetween(head: seq<byte>, word: seq<byte>, tail: seq<byte>)
    requires |head| % 2 == 0 && |word| == 2
    ensures Total(NativeWords(head + word + tail))
         == Total(NativeWords(head)) + Native16(word[0], word[1]) + Total(NativeWords(tail))
  {
    SumAppend(head, word);
    SumAppend(head + word, tail);
    NoWords();
    AddWord([], word[0], word[1]);
    assert [] + [word[0], word[1]] == word;
  }

  /** Exchanging the bytes of a word multiplies it by 256 modulo 65535. */
  lemma SwapTimes256(a: byte, b: byte)
    ensures 0x100 * Native16(a, b) == 0xFFFF * b + Network16(a, b)
  {
  }

  lemma {:induction false} NetworkTotal(s: seq<byte>) returns (j: nat)
    ensures 0x100 * Total(NativeWords(s)) == 0xFFFF * j + Total(NetworkWords(s))
    ensures Total(NativeWords(s)) == 0 <==> Total(NetworkWords(s)) == 0
    decreases |s|
  {
    j := 0;
    if |s| > 0 {
      var hi := if |s| == 1 then 0 else s[1];
      var rest := if |s| == 1 then [] else s[2..];
      j := NetworkTotal(rest);
      TotalAppend([Native16(s[0], hi)], NativeWords(rest));
      TotalAppend([Network16(s[0], hi)], NetworkWords(rest));
      assert NativeWords(s) == [Native16(s[0], hi)] + NativeWords(rest);
      assert NetworkWords(s) == [Network16(s[0], hi)] + NetworkWords(rest);
      OneTotal(Native16(s[0], hi));
      OneTotal(Network16(s[0], hi));
      SwapTimes256(s[0], hi);
      j := j + hi;
    }
  }

  lemma OneTotal(w: uint16)
    ensures Total([w]) == w
  {
    assert [w][..0] == [];
  }

  lemma CanonSwaps(x: nat, y: nat, j: nat)
    requires 0x100 * x == 0xFFFF * j + y && (x == 0 <==> y == 0)
    ensures Swap16(Canon(x)) == Canon(y)
  {
    var k := CanonParts(x);
    var c := Canon(x);
    SwapTimes256(c % 0x100, c / 0x100);
    var d := Swap16(c);
    assert 0x100 * c == 0xFFFF * (c / 0x100) + d;
    var i := 0x100 * k + c / 0x100 - j;
    assert y == 0xFFFF * i + d;
    assert i >= -1 && (i == -1 ==> d == 0xFFFF && y == 0);
    CanonIs(y, i, d);
  }

  lemma SwapComplement(x: uint16)
    ensures Swap16(0xFFFF - x) == 0xFFFF - Swap16(x)
  {
    DivMod(0xFFFF - x, 0x100, 0xFF - x / 0x100, 0xFF - x % 0x100);
  }

  /**
   * Byte order independence (RFC 1071, section 2B): summing native words and storing the result
   * natively puts the network-order checksum on the wire.
   */
  lemma ByteOrderIndependent(s: seq<byte>)
    ensures Swap16(OnesSum(NativeWords(s))) == OnesSum(NetworkWords(s))
    ensures Swap16(Checksum(s)) == 0xFFFF - OnesSum(NetworkWords(s))
  {
    hide OnesSum, Canon, Total, NativeWords, NetworkWords, Swap16;
    OnesSumIsCanon(NativeWords(s));
    OnesSumIsCanon(NetworkWords(s));
    var j := NetworkTotal(s);
    CanonSwaps(Total(NativeWords(s)), Total(NetworkWords(s)), j);
    SwapComplement(OnesSum(NativeWords(s)));
  }

  // ---------- The two implementations ----------

  /** in_cksum of ping.c, continuing from a partial sum; `at` is the pointer into the buffer. */
  method InCksum(buf: array<byte>, at: nat, len: nat, csum: uint16) returns (answer: uint16)
    requires at + len <= buf.Length && len <= 0xFFFF
    ensures answer == 0xFFFF - Canon(csum + Total(NativeWords(buf[at..at + len])))
  {
    hide Total, NativeWords, Canon;
    assert Total(NativeWords([])) == 0 by { NoWords(); }
    assert buf[at..at] == [];
    var nleft: int32, w: nat, sum: int32 := len, at, csum;
    while nleft > 1
      invariant 0 <= nleft <= len && w == at + (len - nleft) && (len - nleft) % 2 == 0
      invariant sum == csum + Total(NativeWords(buf[at..w]))
      invariant 0 <= 2 * (sum - csum) <= 0xFFFF * (len - nleft)
    {
      assert buf[at..w + 2] == buf[at..w] + [buf[w], buf[w + 1]];
      AddWord(buf[at..w], buf[w], buf[w + 1]);
      sum := sum + Native16(buf[w], buf[w + 1]);
      w := w + 2;
      nleft := nleft - 2;
    }
    if nleft == 1 {
      assert buf[at..at + len] == buf[at..w] + [buf[w]];
      AddByte(buf[at..w], buf[w]);
      sum := sum + buf[w];
    }
    answer := FoldAndComplement(sum);
  }

  /** The end of in_cksum: fold twice, complement, truncate to 16 bits. */
  method FoldAndComplement(total: int32) returns (answer: uint16)
    requires total >= 0
    ensures answer == 0xFFFF - Canon(total)
  {
    TwoFolds(total);
    var sum: int32 := total / 0x1_0000 + total % 0x1_0000;
    sum := sum + sum / 0x1_0000;
    answer := U16(-1 - sum);
    DivMod(-1 - sum, 0x1_0000, -1 - sum / 0x1_0000, 0xFFFF - sum % 0x1_0000);
  }

  lemma NoWords()
    ensures Total(NativeWords([])) == 0
  {
  }

  lemma AddWord(s: seq<byte>, a: byte, b: byte)
    requires |s| % 2 == 0
    ensures Total(NativeWords(s + [a, b])) == Total(NativeWords(s)) + Native16(a, b)
  {
    SumAppend(s, [a, b]);
    assert [a, b][2..] == [];
    assert NativeWords([a, b]) == [Native16(a, b)];
    OneTotal(Native16(a, b));
  }

  lemma AddByte(s: seq<byte>, a: byte)
    requires |s| % 2 == 0
    ensures Total(NativeWords(s + [a])) == Total(NativeWords(s)) + a
  {
    SumAppend(s, [a]);
    assert NativeWords([a]) == [a];
    OneTotal(a);
  }

  /** addcarry of clockdiff.c. */
  function AddCarry(sum: nat): nat {
    if sum / 0x1_0000 != 0 then sum % 0x1_0000 + 1 else sum
  }

  /** in_cksum of clockdiff.c: the carry is brought round after every word. */
  method ClockdiffCksum(buf: array<byte>, at: nat, length: nat) returns (answer: uint16)
    requires at + length <= buf.Length
    ensures answer == Checksum(buf[at..at + length])
  {
    hide NativeWords, OnesSum;
    assert OnesSum(NativeWords([])) == 0 by { NoOnes(); }
    assert buf[at..at] == [];
    var addr, len, sum := at, length as int, 0;
    var odd := 0;
    while len > 0
      invariant at <= addr <= at + length && (addr - at) % 2 == 0 && sum == OnesSum(NativeWords(buf[at..addr]))
      invariant if len >= 0 then addr == at && len == length else -2 <= len && addr == at + length - (len + 2)
      invariant len == -1 ==> odd == buf[addr]
    {
      len := len - 2;
      while len >= 0
        invariant at <= addr && -2 <= len && addr == at + length - (len + 2) && (addr - at) % 2 == 0
        invariant sum == OnesSum(NativeWords(buf[at..addr]))
        decreases len
      {
        assert buf[at..addr + 2] == buf[at..addr] + [buf[addr], buf[addr + 1]];
        NextWord(buf[at..addr], [buf[addr], buf[addr + 1]]);
        sum := AddCarry(sum + Native16(buf[addr], buf[addr + 1]));
        addr := addr + 2;
        len := len - 2;
      }
      if len == -1 {
        odd := buf[addr];
      }
    }
    if len == -1 {
      assert buf[at..at + length] == buf[at..addr] + [buf[addr]];
      NextWord(buf[at..addr], [buf[addr]]);
      sum := AddCarry(sum + Native16(odd, 0));
    }
    answer := 0xFFFF - sum;
  }

  lemma NoOnes()
    ensures OnesSum(NativeWords([])) == 0
  {
  }

  lemma OnesSumSnoc(ws: seq<uint16>, w: uint16)
    ensures OnesSum(ws + [w]) == OnesAdd(OnesSum(ws), w)
  {
    assert (ws + [w])[..|ws|] == ws;
  }

  lemma SingleWord(s: seq<byte>)
    requires 1 <= |s| <= 2
    ensures NativeWords(s) == [Native16(s[0], if |s| == 2 then s[1] else 0)]
  {
    assert |s| == 2 ==> s[2..] == [];
  }

  lemma NextWord(before: seq<byte>, s: seq<byte>)
    requires 1 <= |s| <= 2 && |before| % 2 == 0
    ensures var w := Native16(s[0], if |s| == 2 then s[1] else 0);
            OnesSum(NativeWords(before + s)) == AddCarry(OnesSum(NativeWords(before)) + w)
  {
    hide OnesSum, NativeWords;
    SingleWord(s);
    WordsAppend(before, s);
    OnesSumSnoc(NativeWords(before), Native16(s[0], if |s| == 2 then s[1] else 0));
  }

  /** Both programs compute the same checksum. */
  lemma DeferredCarriesAgree(s: seq<byte>)
    ensures 0xFFFF - Canon(0 + Total(NativeWords(s))) == Checksum(s)
  {
    OnesSumIsCanon(NativeWords(s));
  }
}
