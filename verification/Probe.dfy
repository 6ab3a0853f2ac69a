// The echo request that ping4_send_probe composes in place (ping.c), with its checksum computed in
// two passes so that the time stamp can be taken last.
module Probe {
  import opened Words
  import opened InternetChecksum

  const ECHO: byte := 8
  const STAMP_SIZE := 16

  /** The eight bytes of an ICMP echo header; the checksum and the identifier are stored natively. */
  function Header(kind: byte, cksum: uint16, ident: uint16, seqno: uint16): (h: seq<byte>)
    ensures |h| == 8
  {
    [kind, 0, cksum % 0x100, cksum / 0x100, ident % 0x100, ident / 0x100, seqno / 0x100, seqno % 0x100]
  }

  /** A well-formed echo message: its checksum is that of the message with a zero checksum field. */
  function Message(kind: byte, ident: uint16, seqno: uint16, payload: seq<byte>): seq<byte> {
    Header(kind, Checksum(Header(kind, 0, ident, seqno) + payload), ident, seqno) + payload
  }

  lemma {:induction false} ZerosTotal(n: nat)
    ensures Total(NativeWords(Zeros(2 * n))) == 0
  {
    if n > 0 {
      assert Zeros(2 * n) == Zeros(2 * (n - 1)) + [0, 0];
      ZerosTotal(n - 1);
      AddWord(Zeros(2 * (n - 1)), 0, 0);
    }
  }

  lemma ThreeParts(head: seq<byte>, middle: seq<byte>, rest: seq<byte>)
    requires |head| % 2 == 0 && |middle| % 2 == 0
    ensures Total(NativeWords(head + middle + rest))
         == Total(NativeWords(head)) + Total(NativeWords(middle)) + Total(NativeWords(rest))
  {
    SumAppend(head, middle);
    SumAppend(head + middle, rest);
  }

  /** The second pass: continuing over the stamp alone gives the checksum of the stamped message. */
  lemma SecondPass(head: seq<byte>, stamp: seq<byte>, rest: seq<byte>)
    requires |head| % 2 == 0 && |stamp| == STAMP_SIZE
    ensures var first := Checksum(head + Zeros(STAMP_SIZE) + rest);
            0xFFFF - Canon((0xFFFF - first) + Total(NativeWords(stamp))) == Checksum(head + stamp + rest)
  {
    hide Total, NativeWords, Canon, Checksum;
    ZerosTotal(8);
    Replaced(head, Zeros(STAMP_SIZE), stamp, rest);
  }

  lemma Replaced(head: seq<byte>, zeros: seq<byte>, stamp: seq<byte>, rest: seq<byte>)
    requires |head| % 2 == 0 && |zeros| % 2 == 0 && |stamp| % 2 == 0 && Total(NativeWords(zeros)) == 0
    ensures 0xFFFF - Canon((0xFFFF - Checksum(head + zeros + rest)) + Total(NativeWords(stamp)))
         == Checksum(head + stamp + rest)
  {
    hide *;
    ThreeParts(head, zeros, rest);
    ThreeParts(head, stamp, rest);
    Continued(head + zeros + rest, stamp, head + stamp + rest);
  }

  lemma Continued(s: seq<byte>, more: seq<byte>, t: seq<byte>)
    requires Total(NativeWords(t)) == Total(NativeWords(s)) + Total(NativeWords(more))
    ensures 0xFFFF - Canon((0xFFFF - Checksum(s)) + Total(NativeWords(more))) == Checksum(t)
  {
    OnesSumIsCanon(NativeWords(s));
    OnesSumIsCanon(NativeWords(t));
    CanonAbsorbs(Total(NativeWords(s)), Total(NativeWords(more)));
    hide Canon, Total, NativeWords, OnesSum;
  }

  lemma HeaderTotal(kind: byte, cksum: uint16, ident: uint16, seqno: uint16)
    ensures Total(NativeWords(Header(kind, cksum, ident, seqno)))
            == Total(NativeWords(Header(kind, 0, ident, seqno))) + cksum
  {
    var tail := [ident % 0x100, ident / 0x100, seqno / 0x100, seqno % 0x100];
    forall c: uint16
      ensures Total(NativeWords(Header(kind, c, ident, seqno))) == kind + c + Total(NativeWords(tail))
    {
      var front := [kind, 0, c % 0x100, c / 0x100];
      assert Header(kind, c, ident, seqno) == front + tail;
      SumAppend(front, tail);
      assert front == [kind, 0] + [c % 0x100, c / 0x100] && [] + [kind, 0] == [kind, 0];
      AddWord([kind, 0], c % 0x100, c / 0x100);
      AddWord([], kind, 0);
      NoWords();
    }
  }

  /** A receiver that sums the whole message finds it intact, whatever the payload, of odd length too. */
  lemma MessageVerifies(kind: byte, ident: uint16, seqno: uint16, payload: seq<byte>)
    ensures Checksum(Message(kind, ident, seqno, payload)) == 0
  {
    var blank := Header(kind, 0, ident, seqno);
    var c := Checksum(blank + payload);
    SumAppend(blank, payload);
    SumAppend(Header(kind, c, ident, seqno), payload);
    HeaderTotal(kind, c, ident, seqno);
    OnesSumIsCanon(NativeWords(blank + payload));
    OnesSumIsCanon(NativeWords(Message(kind, ident, seqno, payload)));
    hide Canon, Total, NativeWords, OnesSum, Header;
    ComplementCancels(Total(NativeWords(blank + payload)));
  }

  method PutHeader(packet: array<byte>, ident: uint16, seqno: uint16)
    requires packet.Length >= 8
    modifies packet
    ensures packet[..8] == Header(ECHO, 0, ident, seqno) && packet[8..] == old(packet[8..])
  {
    packet[0], packet[1] := ECHO, 0;
    packet[2], packet[3] := 0, 0;
    packet[6], packet[7] := seqno / 0x100, seqno % 0x100;
    packet[4], packet[5] := ident % 0x100, ident / 0x100;
  }

  method PutChecksum(packet: array<byte>, cksum: uint16, ghost before: uint16, ghost ident: uint16, ghost seqno: uint16)
    requires packet.Length >= 8 && packet[..8] == Header(ECHO, before, ident, seqno)
    modifies packet
    ensures packet[..8] == Header(ECHO, cksum, ident, seqno) && packet[8..] == old(packet[8..])
  {
    assert forall i | 0 <= i < 8 :: packet[..8][i] == packet[i];
    packet[2], packet[3] := cksum % 0x100, cksum / 0x100;
  }

  /** The time stamp area right after the header. */
  method PutStamp(packet: array<byte>, stamp: seq<byte>)
    requires packet.Length >= 8 + STAMP_SIZE && |stamp| == STAMP_SIZE
    modifies packet
    ensures packet[..8] == old(packet[..8]) && packet[8..] == stamp + old(packet[8 + STAMP_SIZE..])
  {
    CopyInto(packet, 8, stamp);
    assert packet[8..] == packet[8..8 + STAMP_SIZE] + packet[8 + STAMP_SIZE..];
  }

  lemma TakeAfter(a: seq<byte>, b: seq<byte>, n: nat)
    requires |a| <= n <= |a| + |b|
    ensures (a + b)[..n] == a + b[..n - |a|] && (a + b)[n..] == b[n - |a|..]
  {
  }

  /** The stamp goes in last, and the checksum is continued over it. */
  method Restamp(packet: array<byte>, cc: nat, ident: uint16, seqno: uint16, cksum: uint16, stamp: array<byte>,
                 ghost rest: seq<byte>)
    requires packet != stamp && stamp.Length == STAMP_SIZE && 8 + STAMP_SIZE <= cc <= packet.Length
    requires packet[..8] == Header(ECHO, cksum, ident, seqno) && packet[8 + STAMP_SIZE..cc] == rest
    requires cksum == Checksum(Header(ECHO, 0, ident, seqno) + Zeros(STAMP_SIZE) + rest)
    modifies packet
    ensures packet[..cc] == Message(ECHO, ident, seqno, stamp[..] + rest)
    ensures packet[cc..] == old(packet[cc..])
  {
    hide Checksum, Canon, Total, NativeWords, OnesSum, Header;
    ghost var blank := Header(ECHO, 0, ident, seqno);
    PutStamp(packet, stamp[..]);
    SecondPass(blank, stamp[..], rest);
    assert stamp[0..STAMP_SIZE] == stamp[..];
    var final := InCksum(stamp, 0, STAMP_SIZE, 0xFFFF - cksum);
    assert blank + stamp[..] + rest == blank + (stamp[..] + rest);
    PutChecksum(packet, final, cksum, ident, seqno);
    assert packet[8..][..cc - 8] == stamp[..] + rest by {
      assert old(packet[8 + STAMP_SIZE..])[..cc - 24] == rest;
    }
    assert packet[..cc] == packet[..8] + packet[8..][..cc - 8];
    assert packet[cc..] == packet[8..][cc - 8..];
    assert old(packet[cc..]) == old(packet[8 + STAMP_SIZE..])[cc - 24..];
  }

  /** ping4_send_probe up to sendto; `stamp` holds the time of day the program reads on the way. */
  method Compose(packet: array<byte>, datalen: nat, ident: uint16, seqno: uint16,
                 timing: bool, latency: bool, stamp: array<byte>)
    requires packet != stamp && stamp.Length == STAMP_SIZE
    requires datalen + 8 <= packet.Length <= 0xFFFF && (timing ==> datalen >= STAMP_SIZE)
    modifies packet
    ensures packet[..datalen + 8] ==
              Message(ECHO, ident, seqno, if timing then stamp[..] + old(packet[8 + STAMP_SIZE..datalen + 8])
                                    else old(packet[8..datalen + 8]))
    ensures packet[datalen + 8..] == old(packet[datalen + 8..])
  {
    hide Checksum, Canon, Total, NativeWords, OnesSum, Header;
    var cc := datalen + 8;
    ghost var at := 8 + if timing then STAMP_SIZE else 0;
    ghost var rest, tail := packet[at..cc], packet[at..];
    assert rest == tail[..cc - at];
    assert packet[8..][at - 8..] == tail;
    ghost var blank, stamped := Header(ECHO, 0, ident, seqno), if latency then stamp[..] else Zeros(STAMP_SIZE);
    PutHeader(packet, ident, seqno);
    assert packet[at..] == packet[8..][at - 8..];
    if timing {
      if latency {
        PutStamp(packet, stamp[..]);
      } else {
        PutStamp(packet, Zeros(STAMP_SIZE));
      }
      TakeAfter(stamped, tail, datalen);
    }
    ghost var body := packet[8..cc];
    assert body == packet[8..][..datalen];
    assert body == if timing then stamped + rest else rest;
    assert packet[0..cc] == blank + body;
    var cksum := InCksum(packet, 0, cc, 0);
    DeferredCarriesAgree(blank + body);
    PutChecksum(packet, cksum, 0, ident, seqno);
    assert packet[..cc] == packet[..8] + packet[8..][..datalen];
    assert packet[cc..] == packet[8..][datalen..] == old(packet[cc..]);
    if timing && !latency {
      assert blank + body == blank + Zeros(STAMP_SIZE) + rest;
      Restamp(packet, cc, ident, seqno, cksum, stamp, rest);
    }
  }
}
