// The clock offset estimator of clockdiff.c in ICMP timestamp mode.
module Clock {
  import opened Words

  const RANGE := 1
  const MSGS := 50
  const TRIALS := 10

  // Return codes of the measurement.
  const GOOD := 0
  const FAILED := -1
  const UNREACHABLE := 2
  const NONSTDTIME := 3
  const BREAK := 4
  const CONTINUE := 5
  const HOSTDOWN := 0x7FFF_FFFF

  // A day in milliseconds and the half-day range of a clock difference.
  const BIASP := 43199999
  const BIASN := -43200000
  const MODULO := 86400000

  /** One turn of the receive loop: nothing came, the socket failed, or a packet was read. */
  datatype Poll =
    | Timeout
    | SocketError
    | Packet(ours: bool, sequence: uint16, sendtime: uint32, histime: uint32, recvtime: uint32)

  datatype Estimate = Estimate(
    seqno: uint16,
    seqno0: uint16,
    acked: uint16,
    rtt: int,
    rttSigma: int,
    msgcount: int,
    min1: int,
    min2: int,
    minRtt: int,
    delta1: int)

  /** A time difference brought into the half-day range around zero. */
  function Centred(d: int): int {
    if d < BIASN then d + MODULO else if d > BIASP then d - MODULO else d
  }

  function Abs(x: int): nat {
    if x < 0 then -x else x
  }

  /** A packet that answers one of the requests sent so far. */
  predicate Answers(s: Estimate, e: Poll) {
    e.Packet? && e.ours && s.seqno0 <= e.sequence <= s.seqno
  }

  /** A time that is not in milliseconds since midnight UT is marked in the high bit (RFC 792). */
  predicate Nonstandard(histime: uint32) {
    histime >= 0x8000_0000
  }

  function Smoothed(s: Estimate, e: Poll): Estimate
    requires e.Packet?
  {
    var diff := e.recvtime - e.sendtime;
    var rtt := DivC(s.rtt * 3 + diff, 4);
    s.(rtt := rtt, rttSigma := DivC(s.rttSigma * 3 + Abs(diff - rtt), 4), msgcount := s.msgcount + 1)
  }

  /** The minima after a sample with the two one-way differences. */
  function Minima(s: Estimate, one: int, two: int, diff: int): Estimate {
    var closer := one + two < s.minRtt;
    s.(min1 := if one < s.min1 || diff < RANGE then one else s.min1,
       min2 := if two < s.min2 || diff < RANGE then two else s.min2,
       minRtt := if closer then one + two else s.minRtt,
       delta1 := if closer then DivC(one - two, 2) else s.delta1)
  }

  /** measure_inner_loop. */
  function Receive(s: Estimate, e: Poll): (Estimate, int) {
    if e.Timeout? then (s, BREAK)
    else if e.SocketError? then (s, FAILED)
    else if !Answers(s, e) then (s, CONTINUE)
    else
      var t := s.(acked := if s.acked < e.sequence then e.sequence else s.acked);
      var diff := e.recvtime - e.sendtime;
      if diff < 0 then (t, CONTINUE)
      else if Nonstandard(e.histime) then (Smoothed(t, e), NONSTDTIME)
      else
        (Minima(Smoothed(t, e), Centred(e.histime - e.sendtime), Centred(e.recvtime - e.histime), diff),
         if diff < RANGE then BREAK else CONTINUE)
  }

  // ---------- Truthful hosts ----------

  /** One round trip: out took p milliseconds and back q, on a host whose clock is d ahead. */
  datatype Trip = Trip(p: nat, q: nat)

  predicate TruthfulTrip(e: Poll, d: int, trip: Trip)
    requires e.Packet?
  {
    && BIASN <= d + trip.p <= BIASP && BIASN <= trip.q - d <= BIASP
    && e.sendtime < MODULO
    && e.histime == (e.sendtime + trip.p + d) % MODULO
    && e.recvtime == (e.sendtime + trip.p + trip.q) % MODULO
  }

  ghost predicate Truthful(e: Poll, d: int) {
    e.Packet? && e.ours ==> exists trip :: TruthfulTrip(e, d, trip)
  }

  lemma CentredIs(x: int, y: int, d: int)
    requires 0 <= x < MODULO && 0 <= y < MODULO && BIASN <= d <= BIASP
    requires (y - x - d) % MODULO == 0
    ensures Centred(y - x) == d
  {
    var k := (y - x - d) / MODULO;
    assert y - x - d == MODULO * k;
    assert -2 < k < 2;
  }

  lemma SameResidue(a: int, b: int)
    ensures (a % MODULO - b % MODULO - (a - b)) % MODULO == 0
  {
    var k := b / MODULO - a / MODULO;
    assert a % MODULO - b % MODULO - (a - b) == MODULO * k;
    DivMod(MODULO * k, MODULO, k, 0);
  }

  /** Midnight never shows: an accepted sample has exactly the one-way differences. */
  lemma SampleIsExact(e: Poll, d: int, trip: Trip)
    requires e.Packet? && TruthfulTrip(e, d, trip) && e.sendtime <= e.recvtime
    ensures Centred(e.histime - e.sendtime) == d + trip.p
    ensures Centred(e.recvtime - e.histime) == trip.q - d
    ensures e.recvtime - e.sendtime == trip.p + trip.q
    ensures !Nonstandard(e.histime) && BIASN <= d + trip.p <= BIASP && BIASN <= trip.q - d <= BIASP
  {
    var s, h, r := e.sendtime, e.sendtime + trip.p + d, e.sendtime + trip.p + trip.q;
    DivMod(s, MODULO, 0, s);
    SameResidue(h, s);
    SameResidue(r, h);
    CentredIs(e.sendtime, e.histime, d + trip.p);
    CentredIs(e.histime, e.recvtime, trip.q - d);
    if r >= MODULO {
      DivMod(r, MODULO, 1, r - MODULO);
    } else {
      DivMod(r, MODULO, 0, r);
    }
  }

  predicate IsMin(m: int, xs: seq<int>) {
    m in xs && forall x | x in xs :: m <= x
  }

  function Ps(trips: seq<Trip>): seq<int> { seq(|trips|, i requires 0 <= i < |trips| => trips[i].p) }
  function Qs(trips: seq<Trip>): seq<int> { seq(|trips|, i requires 0 <= i < |trips| => trips[i].q) }
  function Sums(trips: seq<Trip>): seq<int> { seq(|trips|, i requires 0 <= i < |trips| => trips[i].p + trips[i].q) }

  /** The estimate is explained by the trips accepted so far. */
  predicate Explained(s: Estimate, d: int, trips: seq<Trip>) {
    if trips == [] then s.min1 == s.min2 == s.minRtt == 0x7FFF_FFFF
    else
      && IsMin(s.min1 - d, Ps(trips))
      && IsMin(s.min2 + d, Qs(trips))
      && IsMin(s.minRtt, Sums(trips))
      && Abs(2 * (s.delta1 - d)) <= s.minRtt + 1
  }

  lemma MinSnoc(m: int, xs: seq<int>, x: int)
    requires xs == [] || IsMin(m, xs)
    ensures IsMin(if xs == [] || x < m then x else m, xs + [x])
  {
    assert (xs + [x])[|xs|] == x;
    if xs != [] && m <= x {
      assert m in xs + [x];
    }
  }

  lemma MinZero(xs: seq<int>, x: int)
    requires x == 0 && forall y | y in xs :: 0 <= y
    ensures IsMin(0, xs + [x])
  {
    assert (xs + [x])[|xs|] == 0;
  }

  lemma HalfError(d: int, p: nat, q: nat)
    ensures Abs(2 * (DivC(2 * d + p - q, 2) - d)) <= Abs(p - q) + 1
    ensures Abs(p - q) <= p + q
  {
  }

  lemma Snoc(trips: seq<Trip>, t: Trip)
    ensures Ps(trips + [t]) == Ps(trips) + [t.p]
    ensures Qs(trips + [t]) == Qs(trips) + [t.q]
    ensures Sums(trips + [t]) == Sums(trips) + [t.p + t.q]
    ensures (Ps(trips) == [] <==> trips == []) && (Qs(trips) == [] <==> trips == [])
    ensures Sums(trips) == [] <==> trips == []
    ensures forall y | y in Ps(trips) || y in Qs(trips) :: 0 <= y
  {
  }

  lemma SampleExplained(s: Estimate, d: int, trips: seq<Trip>, trip: Trip)
    requires Explained(s, d, trips) && BIASN <= d + trip.p <= BIASP && BIASN <= trip.q - d <= BIASP
    ensures Explained(Minima(s, d + trip.p, trip.q - d, trip.p + trip.q), d, trips + [trip])
  {
    Snoc(trips, trip);
    hide Ps, Qs, Sums, IsMin, DivC, Abs;
    MinSnoc(s.min1 - d, Ps(trips), trip.p);
    MinSnoc(s.min2 + d, Qs(trips), trip.q);
    MinSnoc(s.minRtt, Sums(trips), trip.p + trip.q);
    HalfError(d, trip.p, trip.q);
    if trip.p + trip.q == 0 {
      MinZero(Ps(trips), trip.p);
      MinZero(Qs(trips), trip.q);
    }
  }

  /** The trips a received packet adds: none unless it is accepted. */
  ghost function Accepted(s: Estimate, e: Poll, d: int): seq<Trip>
    requires Truthful(e, d)
  {
    if Answers(s, e) && e.sendtime <= e.recvtime then
      var trip :| TruthfulTrip(e, d, trip);
      [trip]
    else []
  }

  lemma AcceptedExplained(s: Estimate, e: Poll, d: int, trips: seq<Trip>, trip: Trip)
    requires Explained(s, d, trips) && Answers(s, e) && e.sendtime <= e.recvtime && TruthfulTrip(e, d, trip)
    ensures Explained(Receive(s, e).0, d, trips + [trip]) && Receive(s, e).1 != NONSTDTIME
  {
    hide Explained, Centred, Minima, DivC, Abs, TruthfulTrip, Nonstandard;
    SampleIsExact(e, d, trip);
    var t := s.(acked := if s.acked < e.sequence then e.sequence else s.acked);
    var u := Smoothed(t, e);
    SameEstimate(s, u, d, trips);
    SampleExplained(u, d, trips, trip);
  }

  lemma SameEstimate(s: Estimate, t: Estimate, d: int, trips: seq<Trip>)
    requires Explained(s, d, trips)
    requires s.min1 == t.min1 && s.min2 == t.min2 && s.minRtt == t.minRtt && s.delta1 == t.delta1
    ensures Explained(t, d, trips)
  {
  }

  lemma ReceiveCounts(s: Estimate, e: Poll)
    ensures Receive(s, e).1 in {FAILED, NONSTDTIME, BREAK, CONTINUE}
    ensures Receive(s, e).0.msgcount == s.msgcount + if Answers(s, e) && e.sendtime <= e.recvtime then 1 else 0
  {
    hide Centred, DivC, Abs;
  }

  lemma ReceiveExplained(s: Estimate, e: Poll, d: int, trips: seq<Trip>)
    requires Truthful(e, d) && Explained(s, d, trips)
    ensures Explained(Receive(s, e).0, d, trips + Accepted(s, e, d))
    ensures Receive(s, e).0.msgcount == s.msgcount + |Accepted(s, e, d)|
    ensures Receive(s, e).1 != NONSTDTIME
  {
    ReceiveCounts(s, e);
    var more := Accepted(s, e, d);
    hide Explained, TruthfulTrip, Smoothed, Minima;
    if more == [] {
      assert trips + more == trips;
      SameEstimate(s, Receive(s, e).0, d, trips);
    } else {
      assert more == [more[0]];
      AcceptedExplained(s, e, d, trips, more[0]);
    }
  }

  lemma NoTrips(s: Estimate, d: int)
    requires s.min1 == s.min2 == s.minRtt == 0x7FFF_FFFF
    ensures Explained(s, d, [])
  {
  }

  /**
   * The two results for a clock that is d ahead: the minima are those of the trips, and the errors
   * are within half the asymmetry of the fastest trips each way and half the fastest round trip.
   */
  predicate Accurate(s: Estimate, d: int, trips: seq<Trip>) {
    && |trips| >= MSGS
    && IsMin(s.min1 - d, Ps(trips)) && IsMin(s.min2 + d, Qs(trips)) && IsMin(s.minRtt, Sums(trips))
    && Abs(2 * (DivC(s.min1 - s.min2, 2) - d)) <= Abs((s.min1 - d) - (s.min2 + d)) + 1
    && Abs(2 * (s.delta1 - d)) <= s.minRtt + 1
  }

  lemma Conclusion(s: Estimate, d: int, trips: seq<Trip>)
    requires Explained(s, d, trips) && |trips| >= MSGS
    ensures Accurate(s, d, trips)
  {
  }

  // ---------- The measurement ----------

  /** One request: whether it could be sent, and what the receive loop saw after it. */
  datatype Turn = Turn(sent: bool, polls: seq<Poll>)

  ghost predicate TruthfulTurns(turns: seq<Turn>, d: int) {
    forall i, j | 0 <= i < |turns| && 0 <= j < |turns[i].polls| :: Truthful(turns[i].polls[j], d)
  }

  datatype Result = Returned(code: int) | Unfinished

  /** The receive loop after one request; CONTINUE when it is still waiting after the last poll. */
  function Listen(s: Estimate, polls: seq<Poll>): (Estimate, int)
    decreases |polls|
  {
    if polls == [] then (s, CONTINUE)
    else
      var (t, code) := Receive(s, polls[0]);
      if code == CONTINUE then Listen(t, polls[1..]) else (t, code)
  }

  /** The sending loop of measure. */
  function Rounds(s: Estimate, turns: seq<Turn>): (Estimate, Result)
    decreases |turns|
  {
    if s.msgcount >= MSGS then (s, Returned(GOOD))
    else if s.seqno - s.acked > TRIALS then (s, Returned(HOSTDOWN))
    else if turns == [] then (s, Unfinished)
    else
      var t := s.(seqno := U16(s.seqno + 1));
      if !turns[0].sent then (t, Returned(UNREACHABLE))
      else
        var (u, code) := Listen(t, turns[0].polls);
        if code == BREAK then Rounds(u, turns[1..])
        else (u, if code == CONTINUE then Unfinished else Returned(code))
  }

  /** The state in which a measurement begins. */
  function Begin(s: Estimate): Estimate {
    s.(seqno := 0, seqno0 := 0, acked := 0, msgcount := 0,
       min1 := 0x7FFF_FFFF, min2 := 0x7FFF_FFFF, minRtt := 0x7FFF_FFFF, delta1 := HOSTDOWN)
  }

  /** The trips a receive loop accepts, in order. */
  ghost function Heard(s: Estimate, polls: seq<Poll>, d: int): seq<Trip>
    requires forall e | e in polls :: Truthful(e, d)
    decreases |polls|
  {
    if polls == [] then []
    else
      var (t, code) := Receive(s, polls[0]);
      Accepted(s, polls[0], d) + if code == CONTINUE then Heard(t, polls[1..], d) else []
  }

  ghost function AllHeard(s: Estimate, turns: seq<Turn>, d: int): seq<Trip>
    requires TruthfulTurns(turns, d)
    decreases |turns|
  {
    if s.msgcount >= MSGS || s.seqno - s.acked > TRIALS || turns == [] || !turns[0].sent then []
    else
      var t := s.(seqno := U16(s.seqno + 1));
      var (u, code) := Listen(t, turns[0].polls);
      Heard(t, turns[0].polls, d) + if code == BREAK then AllHeard(u, turns[1..], d) else []
  }

  lemma {:induction false} ListenExplained(s: Estimate, polls: seq<Poll>, d: int, trips: seq<Trip>)
    requires (forall e | e in polls :: Truthful(e, d)) && Explained(s, d, trips)
    ensures Explained(Listen(s, polls).0, d, trips + Heard(s, polls, d))
    ensures Listen(s, polls).0.msgcount == s.msgcount + |Heard(s, polls, d)|
    ensures Listen(s, polls).1 != NONSTDTIME
    decreases |polls|
  {
    hide Receive, Explained, Truthful, Accepted;
    if polls == [] {
      assert trips + [] == trips;
    } else {
      var (t, code) := Receive(s, polls[0]);
      var first := Accepted(s, polls[0], d);
      ReceiveExplained(s, polls[0], d, trips);
      if code == CONTINUE {
        assert forall e | e in polls[1..] :: e in polls;
        ListenExplained(t, polls[1..], d, trips + first);
        assert trips + first + Heard(t, polls[1..], d) == trips + (first + Heard(t, polls[1..], d));
      } else {
        assert first + [] == first;
      }
    }
  }

  lemma {:induction false} RoundsExplained(s: Estimate, turns: seq<Turn>, d: int, trips: seq<Trip>)
    requires TruthfulTurns(turns, d) && Explained(s, d, trips)
    ensures Explained(Rounds(s, turns).0, d, trips + AllHeard(s, turns, d))
    ensures Rounds(s, turns).0.msgcount == s.msgcount + |AllHeard(s, turns, d)|
    ensures Rounds(s, turns).1 != Returned(NONSTDTIME)
    ensures Rounds(s, turns).1 == Returned(GOOD) ==> Rounds(s, turns).0.msgcount >= MSGS
    decreases |turns|
  {
    hide Listen, Explained, Truthful, Heard;
    assert trips + [] == trips;
    if s.msgcount < MSGS && s.seqno - s.acked <= TRIALS && turns != [] {
      var t := s.(seqno := U16(s.seqno + 1));
      SameEstimate(s, t, d, trips);
      if turns[0].sent {
        var (u, code) := Listen(t, turns[0].polls);
        var first := Heard(t, turns[0].polls, d);
        ListenExplained(t, turns[0].polls, d, trips);
        ListenCodes(t, turns[0].polls);
        if code == BREAK {
          RoundsExplained(u, turns[1..], d, trips + first);
          assert trips + first + AllHeard(u, turns[1..], d) == trips + (first + AllHeard(u, turns[1..], d));
        } else {
          assert first + [] == first;
        }
      }
    }
  }

  lemma {:induction false} ListenCodes(s: Estimate, polls: seq<Poll>)
    ensures Listen(s, polls).1 in {FAILED, NONSTDTIME, BREAK, CONTINUE}
    decreases |polls|
  {
    if polls != [] {
      ReceiveCounts(s, polls[0]);
      hide Receive;
      ListenCodes(Receive(s, polls[0]).0, polls[1..]);
    }
  }

  /**
   * When the host's clock is a constant d ahead and it answers truthfully, a successful measurement
   * is accurate for the trips it accepted, 50 or more of them.
   */
  lemma ErrorBound(s: Estimate, turns: seq<Turn>, d: int)
    requires TruthfulTurns(turns, d)
    ensures Rounds(Begin(s), turns).1 != Returned(NONSTDTIME)
    ensures Rounds(Begin(s), turns).1 == Returned(GOOD) ==>
              Accurate(Rounds(Begin(s), turns).0, d, AllHeard(Begin(s), turns, d))
  {
    var start := Begin(s);
    NoTrips(start, d);
    assert start.msgcount == 0;
    hide *;
    RoundsExplained(start, turns, d, []);
    var trips := AllHeard(start, turns, d);
    assert [] + trips == trips;
    if Rounds(start, turns).1 == Returned(GOOD) {
      Conclusion(Rounds(start, turns).0, d, trips);
    }
  }

  // ---------- Replies are accepted, silence is noticed ----------

  /** The answer to the outstanding request is accepted, unless its time is not standard. */
  lemma AnswerAccepted(s: Estimate, e: Poll)
    requires e.Packet? && e.ours && e.sequence == s.seqno >= s.seqno0 && e.sendtime <= e.recvtime
    ensures var (t, code) := Receive(s, e);
            && t.msgcount == s.msgcount + 1
            && t.acked == (if s.acked < s.seqno then s.seqno else s.acked)
            && (t.seqno, t.seqno0) == (s.seqno, s.seqno0)
            && code == (if e.histime >= 0x8000_0000 then NONSTDTIME
                        else if e.sendtime == e.recvtime then BREAK else CONTINUE)
            && (e.histime >= 0x8000_0000 ==> t.min1 == s.min1 && t.min2 == s.min2 && t.minRtt == s.minRtt)
  {
    hide Centred, DivC, Abs;
  }

  /** A trip below 1 ms decides the two one-way minima alone. */
  lemma FastTripDecides(s: Estimate, e: Poll)
    requires Answers(s, e) && e.sendtime == e.recvtime && e.histime < 0x8000_0000
    ensures var t := Receive(s, e).0;
            t.min1 == Centred(e.histime - e.sendtime) && t.min2 == Centred(e.recvtime - e.histime)
  {
    hide Centred, DivC, Abs;
  }

  /** Which numbers count as answers: those of the requests of this measurement. */
  lemma OthersIgnored(s: Estimate, e: Poll)
    requires e.Packet?
    ensures !e.ours || e.sequence < s.seqno0 || e.sequence > s.seqno ==> Receive(s, e) == (s, CONTINUE)
    ensures e.ours && s.seqno0 <= e.sequence <= s.seqno ==>
              var (t, code) := Receive(s, e);
              && t.acked == (if s.acked < e.sequence then e.sequence else s.acked)
              && t.msgcount == s.msgcount + (if e.sendtime <= e.recvtime then 1 else 0)
              && (e.sendtime > e.recvtime ==> code == CONTINUE && t == s.(acked := t.acked))
  {
    hide Centred, DivC, Abs;
  }

  /** A trip enters the smoothed round-trip time with one quarter, as its error enters the deviation. */
  lemma SmoothedWeight(s: Estimate, e: Poll)
    requires e.Packet? && e.sendtime <= e.recvtime && s.rtt >= 0 && s.rttSigma >= 0
    ensures var t := Smoothed(s, e);
            var diff := e.recvtime - e.sendtime;
            var error := if diff < t.rtt then t.rtt - diff else diff - t.rtt;
            && 3 * s.rtt + diff - 3 <= 4 * t.rtt <= 3 * s.rtt + diff
            && 3 * s.rttSigma + error - 3 <= 4 * t.rttSigma <= 3 * s.rttSigma + error
  {
  }

  /** Packets of others before an event make no difference. */
  predicate Noise(polls: seq<Poll>) {
    forall e | e in polls :: e.Packet? && !e.ours
  }

  lemma {:induction false} NoiseIgnored(s: Estimate, noise: seq<Poll>, rest: seq<Poll>)
    requires Noise(noise)
    ensures Listen(s, noise + rest) == Listen(s, rest)
    decreases |noise|
  {
    if noise == [] {
      assert noise + rest == rest;
    } else {
      hide Smoothed, Minima, Centred;
      assert noise[0] in noise && (noise + rest)[0] == noise[0] && (noise + rest)[1..] == noise[1..] + rest;
      assert forall e | e in noise[1..] :: e in noise;
      NoiseIgnored(s, noise[1..], rest);
    }
  }

  /** A request that is sent and answered before the time is out, amid packets of others. */
  ghost predicate Prompt(turn: Turn, number: uint16) {
    turn.sent && exists before, e, after ::
      && turn.polls == before + [e] + after + [Timeout] && Noise(before) && Noise(after)
      && e.Packet? && e.ours && e.sequence == number
      && e.sendtime <= e.recvtime && e.histime < 0x8000_0000
  }

  lemma PromptTurn(s: Estimate, turn: Turn)
    requires Prompt(turn, s.seqno) && s.acked < s.seqno && s.seqno0 <= s.seqno
    ensures var (t, code) := Listen(s, turn.polls);
            && code == BREAK && t.msgcount == s.msgcount + 1
            && t.acked == s.seqno && t.seqno == s.seqno && t.seqno0 == s.seqno0
  {
    var before, e, after :|
      && turn.polls == before + [e] + after + [Timeout] && Noise(before) && Noise(after)
      && e.Packet? && e.ours && e.sequence == s.seqno
      && e.sendtime <= e.recvtime && e.histime < 0x8000_0000;
    var rest := [e] + (after + [Timeout]);
    assert turn.polls == before + rest;
    NoiseIgnored(s, before, rest);
    AnswerAccepted(s, e);
    hide Receive;
    assert rest[0] == e && rest[1..] == after + [Timeout];
    var (t, code) := Receive(s, e);
    if code == CONTINUE {
      NoiseIgnored(t, after, [Timeout]);
      OneTimeout(t);
    }
  }

  lemma OneTimeout(s: Estimate)
    ensures Listen(s, [Timeout]) == (s, BREAK)
  {
  }

  /** Every request up to the fiftieth is answered under its own number. */
  ghost predicate AllPrompt(turns: seq<Turn>, sent: nat) {
    forall i | 0 <= i < |turns| && sent + i < MSGS :: Prompt(turns[i], sent + i + 1)
  }

  lemma {:induction false} PromptRounds(s: Estimate, turns: seq<Turn>)
    requires s.msgcount == s.seqno == s.acked <= MSGS && s.seqno0 == 0
    requires |turns| >= MSGS - s.msgcount && AllPrompt(turns, s.msgcount)
    ensures Rounds(s, turns).1 == Returned(GOOD) && Rounds(s, turns).0.msgcount == MSGS
    decreases |turns|
  {
    hide Listen, Prompt;
    if s.msgcount < MSGS {
      var t := s.(seqno := U16(s.seqno + 1));
      assert Prompt(turns[0], s.msgcount + 0 + 1);
      PromptSent(turns[0], t.seqno);
      PromptTurn(t, turns[0]);
      forall i | 0 <= i < |turns[1..]| && s.msgcount + 1 + i < MSGS
        ensures Prompt(turns[1..][i], s.msgcount + 1 + i + 1)
      {
        assert turns[1..][i] == turns[i + 1] && Prompt(turns[i + 1], s.msgcount + (i + 1) + 1);
      }
      PromptRounds(Listen(t, turns[0].polls).0, turns[1..]);
    }
  }

  lemma PromptSent(turn: Turn, number: uint16)
    requires Prompt(turn, number)
    ensures turn.sent
  {
  }

  /**
   * A host that answers each of the first 50 requests in time is measured, from 50 trips; when it
   * is truthful, as accurately as ErrorBound says.
   */
  lemma PromptHostIsMeasured(s: Estimate, turns: seq<Turn>, d: int)
    requires |turns| >= MSGS && AllPrompt(turns, 0)
    ensures Rounds(Begin(s), turns).1 == Returned(GOOD)
    ensures TruthfulTurns(turns, d) ==>
              |AllHeard(Begin(s), turns, d)| == MSGS
              && Accurate(Rounds(Begin(s), turns).0, d, AllHeard(Begin(s), turns, d))
  {
    PromptRounds(Begin(s), turns);
    if TruthfulTurns(turns, d) {
      ErrorBound(s, turns, d);
      NoTrips(Begin(s), d);
      RoundsExplained(Begin(s), turns, d, []);
    }
    hide Rounds, AllHeard, Accurate;
  }

  /** Requests that are sent and get no answer: only packets of others until the time is out. */
  ghost predicate Unanswered(turn: Turn) {
    turn.sent && exists noise :: turn.polls == noise + [Timeout] && Noise(noise)
  }

  lemma UnansweredTurn(s: Estimate, turn: Turn)
    requires Unanswered(turn)
    ensures Listen(s, turn.polls) == (s, BREAK)
  {
    var noise :| turn.polls == noise + [Timeout] && Noise(noise);
    NoiseIgnored(s, noise, [Timeout]);
    OneTimeout(s);
  }

  lemma {:induction false} SilentRounds(s: Estimate, turns: seq<Turn>)
    requires s.msgcount < MSGS && s.acked <= s.seqno <= s.acked + TRIALS + 1 <= 0xFFFF
    requires forall i | 0 <= i < |turns| :: Unanswered(turns[i])
    ensures Rounds(s, turns) ==
              if s.seqno + |turns| > s.acked + TRIALS
              then (s.(seqno := s.acked + TRIALS + 1), Returned(HOSTDOWN))
              else (s.(seqno := s.seqno + |turns|), Unfinished)
    decreases |turns|
  {
    hide Listen, Unanswered;
    if s.seqno <= s.acked + TRIALS && |turns| > 0 {
      var t := s.(seqno := U16(s.seqno + 1));
      UnansweredTurn(t, turns[0]);
      assert Unanswered(turns[0]);
      UnansweredSent(turns[0]);
      assert forall i | 0 <= i < |turns[1..]| :: turns[1..][i] == turns[i + 1];
      SilentRounds(t, turns[1..]);
    }
  }

  lemma UnansweredSent(turn: Turn)
    requires Unanswered(turn)
    ensures turn.sent
  {
  }

  /** A silent host is taken to be down after exactly 11 requests. */
  lemma SilentHostIsDown(s: Estimate, turns: seq<Turn>)
    requires forall i | 0 <= i < |turns| :: Unanswered(turns[i])
    ensures Rounds(Begin(s), turns).1 == if |turns| >= 11 then Returned(HOSTDOWN) else Unfinished
    ensures Rounds(Begin(s), turns).0.seqno == if |turns| >= 11 then 11 else |turns|
  {
    SilentRounds(Begin(s), turns);
    hide Rounds;
  }

  /** A request that cannot be sent ends the measurement, as does a failing socket. */
  lemma FailuresEnd(s: Estimate, turns: seq<Turn>)
    requires s.msgcount < MSGS && s.seqno - s.acked <= TRIALS && |turns| > 0
    ensures var t := s.(seqno := U16(s.seqno + 1));
            && (!turns[0].sent ==> Rounds(s, turns) == (t, Returned(UNREACHABLE)))
            && (turns[0].sent && |turns[0].polls| > 0 && turns[0].polls[0] == SocketError ==>
                  Rounds(s, turns) == (t, Returned(FAILED)))
  {
    hide U16;
  }

  class RunState {
    var seqno: uint16
    var seqno0: uint16
    var acked: uint16
    var rtt: int
    var rttSigma: int
    var minRtt: int
    var measureDelta: int
    var measureDelta1: int
    var msgcount: int  // the members of struct measure_vars
    var min1: int
    var min2: int

    ghost function View(): Estimate
      reads this
    {
      Estimate(seqno, seqno0, acked, rtt, rttSigma, msgcount, min1, min2, minRtt, measureDelta1)
    }

    method MeasureInnerLoop(e: Poll) returns (code: int)
      modifies this
      ensures (View(), code) == Receive(old(View()), e)
      ensures measureDelta == old(measureDelta)
    {
      hide Centred, Minima, DivC, Abs;
      if e.Timeout? {
        return BREAK;
      }
      if e.SocketError? {
        return FAILED;
      }
      if e.ours && seqno0 <= e.sequence && e.sequence <= seqno {
        if acked < e.sequence {
          acked := e.sequence;
        }
        var diff := e.recvtime - e.sendtime;
        if diff < 0 {
          return CONTINUE;
        }
        rtt := DivC(rtt * 3 + diff, 4);
        rttSigma := DivC(rttSigma * 3 + Abs(diff - rtt), 4);
        msgcount := msgcount + 1;
        if e.histime >= 0x8000_0000 {
          return NONSTDTIME;
        }
        code := TakeSample(e.histime - e.sendtime, e.recvtime - e.histime, diff);
        return code;
      }
      return CONTINUE;
    }

    method AroundMidnight(raw: int) returns (delta: int)
      ensures delta == Centred(raw)
    {
      delta := raw;
      if delta < BIASN {
        delta := delta + MODULO;
      } else if delta > BIASP {
        delta := delta - MODULO;
      }
    }

    /** The end of measure_inner_loop: the raw differences, brought around midnight, and the minima. */
    method TakeSample(raw1: int, raw2: int, diff: int) returns (code: int)
      modifies `min1, `min2, `minRtt, `measureDelta1
      ensures View() == Minima(old(View()), Centred(raw1), Centred(raw2), diff)
      ensures code == if diff < RANGE then BREAK else CONTINUE
    {
      hide DivC, Centred;
      var delta1 := AroundMidnight(raw1);
      var delta2 := AroundMidnight(raw2);
      if delta1 < min1 {
        min1 := delta1;
      }
      if delta2 < min2 {
        min2 := delta2;
      }
      if delta1 + delta2 < minRtt {
        minRtt := delta1 + delta2;
        measureDelta1 := DivC(delta1 - delta2, 2);
      }
      if diff < RANGE {
        min1 := delta1;
        min2 := delta2;
        return BREAK;
      }
      return CONTINUE;
    }

    /** measure, for any behaviour of the network. */
    method Measure(turns: seq<Turn>) returns (r: Result)
      modifies this
      ensures (View(), r) == Rounds(Begin(old(View())), turns)
      ensures measureDelta == if r == Returned(GOOD) then DivC(min1 - min2, 2) else HOSTDOWN
    {
      hide Receive, DivC, Listen, U16, Abs;
      min1, min2, minRtt := 0x7FFF_FFFF, 0x7FFF_FFFF, 0x7FFF_FFFF;
      measureDelta, measureDelta1 := HOSTDOWN, HOSTDOWN;
      acked, seqno, seqno0 := 0, 0, 0;
      msgcount := 0;
      ghost var start := View();
      var i := 0;
      while msgcount < MSGS
        invariant 0 <= i <= |turns| && measureDelta == HOSTDOWN
        invariant Rounds(start, turns) == Rounds(View(), turns[i..])
        decreases |turns| - i
      {
        if seqno - acked > TRIALS {
          return Returned(HOSTDOWN);
        }
        if i == |turns| {
          return Unfinished;
        }
        assert turns[i..][0] == turns[i] && turns[i..][1..] == turns[i + 1..];
        seqno := U16(seqno + 1);
        if !turns[i].sent {
          return Returned(UNREACHABLE);
        }
        ghost var before := View();
        var code := ReceiveLoop(turns[i].polls);
        ListenCodes(before, turns[i].polls);
        if code == CONTINUE {
          return Unfinished;
        } else if code != BREAK {
          return Returned(code);
        }
        i := i + 1;
      }
      measureDelta := DivC(min1 - min2, 2);
      return Returned(GOOD);
    }

    /** The inner loop of measure, which goes on until a break or a failure. */
    method ReceiveLoop(polls: seq<Poll>) returns (code: int)
      modifies this
      ensures (View(), code) == Listen(old(View()), polls)
      ensures measureDelta == old(measureDelta)
    {
      hide Receive;
      ghost var start := View();
      var j := 0;
      while j < |polls|
        invariant 0 <= j <= |polls| && measureDelta == old(measureDelta)
        invariant Listen(start, polls) == Listen(View(), polls[j..])
      {
        assert polls[j..][0] == polls[j] && polls[j..][1..] == polls[j + 1..];
        code := MeasureInnerLoop(polls[j]);
        if code != CONTINUE {
          return;
        }
        j := j + 1;
      }
      return CONTINUE;
    }
  }
}
