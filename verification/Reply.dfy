// What ping4_parse_reply does with a packet from a raw socket (ping.c), and why the socket filter
// never hides anything from it that it would count.
module Reply {
  import opened Words
  import opened InternetChecksum
  import opened Statistics
  import opened Scheduler
  import opened Engine
  import opened Probe
  import Filter
  import Window

  // ICMP message types.
  const ECHO_REPLY := 0
  const DEST_UNREACH := 3
  const SOURCE_QUENCH := 4
  const REDIRECT := 5
  const ECHO_REQUEST := 8
  const TIME_EXCEEDED := 11
  const PARAMETER_PROBLEM := 12

  datatype Kind =
    | Foreign                               // not for us: return 1
    | Answer(seqno: uint16, csfailed: bool) // counted by gather_statistics
    | ErrorFor(seqno: uint16)               // an ICMP error about one of our probes
    | Unrelated                             // some other ICMP message: return 0

  /** An ICMP error concerns us when it quotes an echo request of ours to the destination. */
  function QuotedKind(m: seq<byte>, ident: uint16, dest: seq<byte>): Kind
    requires |m| >= 8
  {
    if |m| < 8 + 20 + 8 then Foreign
    else
      var inner := 8 + m[8] % 16 * 4;
      if |m| < inner + 8 then Foreign
      else if m[inner] != ECHO_REQUEST || m[24..28] != dest || Native16(m[inner + 4], m[inner + 5]) != ident
      then Foreign
      else if m[0] == REDIRECT || m[0] == SOURCE_QUENCH then Foreign
      else ErrorFor(Network16(m[inner + 6], m[inner + 7]))
  }

  /** The meaning of an ICMP message m for a ping with this identifier and destination. */
  function IcmpKind(m: seq<byte>, ident: uint16, dest: seq<byte>): Kind
    requires |m| >= 8
  {
    if m[0] == ECHO_REPLY then
      if Native16(m[4], m[5]) == ident then Answer(Network16(m[6], m[7]), Checksum(m) != 0) else Foreign
    else if m[0] == ECHO_REQUEST then Foreign
    else if m[0] in {SOURCE_QUENCH, REDIRECT, DEST_UNREACH, TIME_EXCEEDED, PARAMETER_PROBLEM} then
      QuotedKind(m, ident, dest)
    else Unrelated
  }

  /** The meaning of a whole IP packet. */
  function KindOf(p: seq<byte>, ident: uint16, dest: seq<byte>): Kind {
    if |p| == 0 || |p| < p[0] % 16 * 4 + 8 || p[0] % 16 < 5 then Foreign
    else IcmpKind(p[p[0] % 16 * 4..], ident, dest)
  }

  // ---------- What the kinds mean ----------

  /** The bytes by which a message shows that it belongs to probe s of ours. */
  predicate Names(b: seq<byte>, ident: uint16, s: uint16) {
    b == Header(ECHO, 0, ident, s)[4..8]
  }

  lemma NamesIs(b: seq<byte>, ident: uint16, s: uint16)
    requires |b| == 4
    ensures Names(b, ident, s) <==> Native16(b[0], b[1]) == ident && Network16(b[2], b[3]) == s
  {
    assert Header(ECHO, 0, ident, s)[4..8] == [ident % 0x100, ident / 0x100, s / 0x100, s % 0x100];
    DivMod(Native16(b[0], b[1]), 0x100, b[1], b[0]);
    DivMod(Network16(b[2], b[3]), 0x100, b[2], b[3]);
  }

  /**
   * A message is an error for probe s exactly when it is of a type that reports one and quotes, to
   * its first 8 bytes at least, an echo request to our destination that names s.
   */
  lemma ErrorExactly(m: seq<byte>, ident: uint16, dest: seq<byte>, s: uint16)
    requires |m| >= 8
    ensures IcmpKind(m, ident, dest) == ErrorFor(s) <==>
            && m[0] in {DEST_UNREACH, TIME_EXCEEDED, PARAMETER_PROBLEM} && |m| >= 36
            && var inner := 8 + m[8] % 16 * 4;
            && |m| >= inner + 8 && m[24..28] == dest && m[inner] == ECHO && Names(m[inner + 4..inner + 8], ident, s)
  {
    hide Checksum, Names;
    if |m| >= 36 && |m| >= 8 + m[8] % 16 * 4 + 8 {
      var inner := 8 + m[8] % 16 * 4;
      NamesIs(m[inner + 4..inner + 8], ident, s);
    }
  }

  /** A message is an answer for probe s exactly when it is an echo reply that names s. */
  lemma AnswerExactly(m: seq<byte>, ident: uint16, dest: seq<byte>, s: uint16, csfailed: bool)
    requires |m| >= 8
    ensures IcmpKind(m, ident, dest) == Answer(s, csfailed) <==>
            && m[0] == ECHO_REPLY && Names(m[4..8], ident, s) && (csfailed <==> Checksum(m) != 0)
  {
    hide Checksum, QuotedKind, Names;
    NamesIs(m[4..8], ident, s);
    QuotedIsNoAnswer(m, ident, dest);
  }

  lemma QuotedIsNoAnswer(m: seq<byte>, ident: uint16, dest: seq<byte>)
    requires |m| >= 8
    ensures QuotedKind(m, ident, dest).Foreign? || QuotedKind(m, ident, dest).ErrorFor?
  {
  }

  /** Of the rest, messages of types without a meaning for ping are passed over, all others refused. */
  lemma UnrelatedExactly(m: seq<byte>, ident: uint16, dest: seq<byte>)
    requires |m| >= 8
    ensures IcmpKind(m, ident, dest) == Unrelated <==> m[0] !in {0, 3, 4, 5, 8, 11, 12}
  {
    hide Checksum, QuotedKind;
    QuotedIsNoAnswer(m, ident, dest);
  }

  /** The message of a packet begins behind an IP header of at least 20 bytes, and has 8 or more. */
  lemma MessageOf(p: seq<byte>, ident: uint16, dest: seq<byte>)
    ensures KindOf(p, ident, dest) ==
              if |p| > 0 && p[0] % 16 >= 5 && |p| - 4 * (p[0] % 16) >= 8
              then IcmpKind(p[4 * (p[0] % 16)..], ident, dest) else Foreign
  {
  }

  /** A router's report about our probe is attributed to it, however much it quotes. */
  lemma ErrorIsAttributed(head: seq<byte>, ip: seq<byte>, quoted: seq<byte>, ident: uint16, seqno: uint16,
                          payload: seq<byte>, dest: seq<byte>)
    requires |head| == 8 && head[0] in {3, 11, 12}
    requires |ip| >= 20 && |ip| == 4 * (ip[0] % 16) && ip[16..20] == dest
    requires |quoted| >= 8 && quoted[..8] == Message(ECHO, ident, seqno, payload)[..8]
    ensures IcmpKind(head + ip + quoted, ident, dest) == ErrorFor(seqno)
  {
    hide Checksum, Names, IcmpKind;
    var m := head + ip + quoted;
    var inner := 8 + |ip|;
    assert m[8] == ip[0] && m[24..28] == ip[16..20];
    assert m[inner..] == quoted;
    assert m[inner] == quoted[..8][0] && m[inner + 4..inner + 8] == quoted[..8][4..8];
    MessageNames(ECHO, ident, seqno, payload);
    ErrorExactly(m, ident, dest, seqno);
  }

  lemma MessageNames(kind: byte, ident: uint16, seqno: uint16, payload: seq<byte>)
    ensures var m := Message(kind, ident, seqno, payload)[..8];
            m[0] == kind && Names(m[4..8], ident, seqno)
  {
    hide Checksum;
    var c := Checksum(Header(kind, 0, ident, seqno) + payload);
    assert Message(kind, ident, seqno, payload)[..8] == Header(kind, c, ident, seqno);
  }

  /** A reply of which one word of the payload was changed on the way is counted as corrupted. */
  lemma CorruptionIsNoticed(ident: uint16, seqno: uint16, front: seq<byte>, before: seq<byte>, after: seq<byte>,
                            tail: seq<byte>, dest: seq<byte>)
    requires |front| % 2 == 0 && |before| == |after| == 2 && before != after
    requires before != [0, 0] && before != [0xFF, 0xFF]
    ensures var m := Message(ECHO_REPLY, ident, seqno, front + before + tail);
            IcmpKind(m[..8] + front + after + tail, ident, dest) == Answer(seqno, true)
  {
    hide Checksum, IcmpKind, Names, Header, Native16;
    var payload := front + before + tail;
    var m := Message(ECHO_REPLY, ident, seqno, payload);
    var head := m[..8] + front;
    var changed := m[..8] + front + after + tail;
    assert m[8..] == payload;
    assert m == head + before + tail;
    assert changed == head + after + tail;
    MessageVerifies(ECHO_REPLY, ident, seqno, payload);
    MessageNames(ECHO_REPLY, ident, seqno, payload);
    assert changed[..8] == m[..8];
    assert changed[0] == m[..8][0] && changed[4..8] == m[..8][4..8];
    OneWordChanged(head, before, after, tail);
    Different(before, after);
    AnswerExactly(changed, ident, dest, seqno, true);
  }

  lemma Different(before: seq<byte>, after: seq<byte>)
    requires |before| == |after| == 2 && before != after && before != [0, 0] && before != [0xFF, 0xFF]
    ensures var w, v := Native16(before[0], before[1]), Native16(after[0], after[1]);
            w != v && w != 0 && w != 0xFFFF
  {
    DivMod(Native16(before[0], before[1]), 0x100, before[1], before[0]);
    DivMod(Native16(after[0], after[1]), 0x100, after[1], after[0]);
  }

  /** Nothing the parser would count is dropped in the kernel: it returns 1 for all that is. */
  lemma FilterIsSound(ident: uint16, dest: seq<byte>, p: seq<byte>)
    requires Filter.Run(Filter.Program(Swap16(ident)), p) == 0
    ensures KindOf(p, ident, dest) == Foreign
  {
    Filter.Decision(ident, p);
  }

  /** Every echo reply with our identifier passes, and with the whole of its length. */
  lemma OurRepliesPass(ident: uint16, dest: seq<byte>, p: seq<byte>)
    requires KindOf(p, ident, dest).Answer? && |p| <= 0xFFFF
    ensures Filter.Run(Filter.Program(Swap16(ident)), p) >= |p|
  {
    Filter.Decision(ident, p);
  }

  /** A host that answers our probe as it must is counted, uncorrupted, under the right number. */
  lemma EchoIsCounted(ip: seq<byte>, ident: uint16, seqno: uint16, payload: seq<byte>, dest: seq<byte>)
    requires |ip| > 0 && ip[0] % 16 >= 5 && |ip| == 4 * (ip[0] % 16)
    ensures var p := ip + Message(ECHO_REPLY, ident, seqno, payload);
            && KindOf(p, ident, dest) == Answer(seqno, false)
            && Filter.Run(Filter.Program(Swap16(ident)), p) == 0xFFFF_FFFF
  {
    var m := Message(ECHO_REPLY, ident, seqno, payload);
    var p := ip + m;
    assert p[|ip|..] == m;
    assert p[|ip| + 4] == m[4] && p[|ip| + 5] == m[5];
    MessageVerifies(ECHO_REPLY, ident, seqno, payload);
    hide Checksum;
    DivMod(ident, 0x100, ident / 0x100, ident % 0x100);
    assert Native16(m[4], m[5]) == ident && Network16(m[6], m[7]) == seqno;
    Filter.Decision(ident, p);
  }

  /** Where a reply carries the stamp of its probe: right after the ICMP header. */
  function StampOf(p: seq<byte>): TimeVal
    requires |p| > 0
  {
    var at := p[0] % 16 * 4 + 8;
    if |p| < at + STAMP_SIZE then TimeVal(0, 0) else ReadStamp(p[at..at + STAMP_SIZE])
  }

  /** A reply that returns the payload of a stamped probe carries the very time the probe was sent. */
  lemma EchoIsTimed(ip: seq<byte>, ident: uint16, seqno: uint16, sent: TimeVal, rest: seq<byte>)
    requires |ip| > 0 && |ip| == 4 * (ip[0] % 16) && InRange(sent)
    ensures StampOf(ip + Message(ECHO_REPLY, ident, seqno, StampBytes(sent) + rest)) == sent
  {
    hide Checksum, Header, StampBytes, ReadStamp;
    var m := Message(ECHO_REPLY, ident, seqno, StampBytes(sent) + rest);
    var p, at := ip + m, |ip| + 8;
    assert p[0] == ip[0] && m[8..] == StampBytes(sent) + rest;
    assert p[at..at + STAMP_SIZE] == m[8..][..STAMP_SIZE];
    assert (StampBytes(sent) + rest)[..STAMP_SIZE] == StampBytes(sent);
    StampRead(sent);
  }

  /** The two kinds of message that reach the counters, as events of the statistics. */
  function Effect(k: Kind, trip: Option<nat>): seq<Event> {
    match k
    case Answer(seqno, csfailed) => [Event.Reply(seqno, csfailed, trip)]
    case ErrorFor(seqno) => [Unreachable(seqno)]
    case _ => []
  }

  /** An error acknowledges its probe and does nothing else; an answer counts once; the rest nothing. */
  lemma EffectIs(s: Stats, k: Kind, trip: Option<nat>)
    ensures var t := Apply(s, Effect(k, trip));
            if k.Answer? then
              && t.received + t.repeats + t.badsum == s.received + s.repeats + s.badsum + 1
              && t.badsum == s.badsum + (if k.csfailed then 1 else 0) && t.errors == s.errors
              && t.w == if k.csfailed then s.w else Window.Acknowledge(s.w, k.seqno)
            else t == if k.ErrorFor? then s.(w := Window.Acknowledge(s.w, k.seqno)) else s
  {
    hide Window.Acknowledge, Smooth, Apply, U16;
    match k
    case Answer(n, csfailed) =>
      FewSteps(s, Event.Reply(n, csfailed, trip), Sent, Sent);
    case ErrorFor(n) =>
      FewSteps(s, Unreachable(n), Sent, Sent);
    case _ =>
      FewSteps(s, Sent, Sent, Sent);
  }

  /** The checks on the packet quoted by an ICMP error; the message is at hlen in the buffer. */
  method ReadQuoted(buf: array<byte>, hlen: nat, len: nat, ident: uint16, dest: seq<byte>) returns (kind: Kind)
    requires 8 <= len && hlen + len <= buf.Length && hlen <= 60 && buf.Length >= 136
    ensures kind == QuotedKind(buf[hlen..hlen + len], ident, dest)
  {
    ghost var m := buf[hlen..hlen + len];
    assert forall i | 0 <= i < len :: m[i] == buf[hlen + i];
    var iph := hlen + 8;
    var icp1 := iph + buf[iph] % 16 * 4;
    if len < 8 + 20 + 8 || len < 8 + buf[iph] % 16 * 4 + 8 {
      return Foreign;
    }
    assert m[24..28] == buf[iph + 16..iph + 20] by {
      assert forall i | 0 <= i < 4 :: m[24..28][i] == m[24 + i] == buf[iph + 16 + i];
    }
    if buf[icp1] != ECHO_REQUEST || buf[iph + 16..iph + 20] != dest
       || Native16(buf[icp1 + 4], buf[icp1 + 5]) != ident {
      return Foreign;
    }
    if buf[hlen] != REDIRECT && buf[hlen] != SOURCE_QUENCH {
      return ErrorFor(Network16(buf[icp1 + 6], buf[icp1 + 7]));
    }
    return Foreign;
  }

  /** The ICMP checks of ping4_parse_reply. */
  method ReadIcmp(buf: array<byte>, hlen: nat, len: nat, ident: uint16, dest: seq<byte>) returns (kind: Kind)
    requires 8 <= len <= 0xFFFF && hlen + len <= buf.Length && hlen <= 60 && buf.Length >= 136
    ensures kind == IcmpKind(buf[hlen..hlen + len], ident, dest)
  {
    hide Checksum, Canon, Total, NativeWords, OnesSum, QuotedKind;
    var answer := InCksum(buf, hlen, len, 0);
    DeferredCarriesAgree(buf[hlen..hlen + len]);
    var csfailed := answer != 0;
    if buf[hlen] == ECHO_REPLY {
      if Native16(buf[hlen + 4], buf[hlen + 5]) != ident {
        return Foreign;
      }
      return Answer(Network16(buf[hlen + 6], buf[hlen + 7]), csfailed);
    }
    match buf[hlen]
    case 8 =>  // an echo request
      return Foreign;
    case 3 | 4 | 5 | 11 | 12 =>
      kind := ReadQuoted(buf, hlen, len, ident, dest);
    case _ =>
      return Unrelated;
  }

  /** ping4_parse_reply on a raw socket: the first cc bytes of the receive buffer are the packet. */
  method ParseReply(rts: PingRts, buf: array<byte>, cc: nat, ident: uint16, dest: seq<byte>,
                    timing: bool, tv: TimeVal, again: TimeVal)
    returns (r: int, ghost trip: Option<nat>)
    requires rts.Valid() && buf.Length >= 136 && cc <= buf.Length && cc <= 0xFFFF
    modifies rts`nreceived, rts`nrepeats, rts`nchecksum, rts`acked, rts`pipesize, rts`tmin, rts`tmax, rts`rtt,
             rts`latency, rts.rcvd.bitmap
    ensures rts.Valid()
    ensures r == if KindOf(old(buf[..cc]), ident, dest).Foreign? then 1 else 0
    ensures rts.View() == Apply(old(rts.View()), Effect(KindOf(old(buf[..cc]), ident, dest), trip))
    ensures KindOf(old(buf[..cc]), ident, dest).Answer? ==>
              var stamp := StampOf(old(buf[..cc]));
              (trip.Some? <==> timing && cc - old(buf[0]) % 16 * 4 >= 8 + STAMP_SIZE)
              && rts.latency == (old(rts.latency) || (trip.Some? && Sub(tv, stamp).sec < 0))
              && (trip.Some? ==> trip.value == Trip(Reading(tv, stamp, again, old(rts.latency)), stamp) <= MAX_TRIP)
  {
    hide IcmpKind, Step, Apply, ReadStamp;
    trip := None;
    ghost var before := rts.View();
    assert Apply(before, []) == before by { FewSteps(before, Sent, Sent, Sent); }
    var ihl := buf[0] % 16;
    var hlen := ihl * 4;
    if cc < hlen + 8 || ihl < 5 {
      return 1, None;
    }
    var kind := ReadIcmp(buf, hlen, cc - hlen, ident, dest);
    assert buf[..cc][hlen..] == buf[hlen..hlen + (cc - hlen)];
    match kind
    case Answer(seqno, csfailed) =>
      var timed := timing && cc - hlen >= 8 + STAMP_SIZE;
      var stamp := TimeVal(0, 0);
      if timed {
        stamp := ReadStamp(buf[hlen + 8..hlen + 8 + STAMP_SIZE]);
        assert buf[..cc][hlen + 8..hlen + 8 + STAMP_SIZE] == buf[hlen + 8..hlen + 8 + STAMP_SIZE];
      }
      trip := rts.GatherStatistics(seqno, csfailed, timed, tv, stamp, again);
      FewSteps(before, Event.Reply(seqno, csfailed, trip), Sent, Sent);
      return 0, trip;
    case ErrorFor(seqno) =>
      rts.Acknowledge(seqno);
      FewSteps(before, Unreachable(seqno), Sent, Sent);
      return 0, None;
    case Unrelated =>
      return 0, None;
    case Foreign =>
      return 1, None;
  }
}
