// The counters of a run as a state machine over its sends and replies: what gather_statistics,
// rcvd_clear in the send path and the error paths do to them, with the table of answered
// sequence numbers as a set.
module Statistics {
  import opened Words
  import Window

  const LONG_MAX := 0x7FFF_FFFF_FFFF_FFFF

  /** The longest trip time that survives clamping: 2147 s and 999999 us. */
  const MAX_TRIP := 2147999999

  datatype Stats = Stats(
    w: Window.Window,
    received: int,
    repeats: int,
    badsum: int,
    errors: int,
    tmin: int,
    tmax: int,
    rtt: int,
    table: set<uint16>)

  const INITIAL := Stats(Window.FRESH, 0, 0, 0, 0, LONG_MAX, 0, 0, {})

  datatype Event =
    | Attempt                                                     // send_probe is called
    | Sent                                                        // the probe counts as sent
    | Failed                                                      // an error is counted
    | Unreachable(seqno: uint16)                                  // an ICMP error acknowledges
    | Reply(seqno: uint16, csfailed: bool, trip: Option<nat>)     // gather_statistics

  /** The average in eighths of a microsecond; zero means that there is none yet. */
  function Smooth(rtt: int, trip: int): int {
    if rtt == 0 then 8 * trip else rtt + trip - rtt / 8
  }

  function Time(s: Stats, trip: int): Stats {
    s.(tmin := if trip < s.tmin then trip else s.tmin,
       tmax := if trip > s.tmax then trip else s.tmax,
       rtt := Smooth(s.rtt, trip))
  }

  function Classify(s: Stats, seqno: uint16, csfailed: bool): Stats {
    if csfailed then s.(badsum := s.badsum + 1)
    else if seqno in s.table then s.(repeats := s.repeats + 1)
    else s.(received := s.received + 1, table := s.table + {seqno})
  }

  function Step(s: Stats, e: Event): Stats {
    match e
    case Attempt => s.(table := s.table - {U16(s.w.sent + 1)})
    case Sent => s.(w := Window.Advance(s.w))
    case Failed => s.(errors := s.errors + 1)
    case Unreachable(seqno) => s.(w := Window.Acknowledge(s.w, seqno))
    case Reply(seqno, csfailed, trip) =>
      var acked := if csfailed then s else s.(w := Window.Acknowledge(s.w, seqno));
      var timed := if csfailed || trip.None? then acked else Time(acked, trip.value);
      Classify(timed, seqno, csfailed)
  }

  function Apply(s: Stats, events: seq<Event>): Stats {
    if |events| == 0 then s else Step(Apply(s, events[..|events| - 1]), events[|events| - 1])
  }

  function Run(events: seq<Event>): Stats {
    Apply(INITIAL, events)
  }

  lemma ApplyOne(s: Stats, events: seq<Event>, e: Event)
    ensures Apply(s, events + [e]) == Step(Apply(s, events), e)
  {
    assert (events + [e])[..|events|] == events;
  }

  // ---------- The window inside the statistics ----------

  function WindowEvent(e: Event): seq<Window.Event> {
    match e
    case Sent => [Window.Send]
    case Unreachable(seqno) => [Window.Answer(seqno)]
    case Reply(seqno, csfailed, _) => if csfailed then [] else [Window.Answer(seqno)]
    case _ => []
  }

  function WindowEvents(events: seq<Event>): seq<Window.Event> {
    if |events| == 0 then [] else WindowEvents(events[..|events| - 1]) + WindowEvent(events[|events| - 1])
  }

  lemma RunSnoc(past: seq<Window.Event>, w: Window.Event)
    ensures Window.Run(past + [w]) == Window.Step(Window.Run(past), w)
  {
    assert (past + [w])[..|past|] == past;
  }

  lemma WindowStep(s: Stats, e: Event, past: seq<Window.Event>)
    requires s.w == Window.Run(past)
    ensures Step(s, e).w == Window.Run(past + WindowEvent(e))
  {
    hide Window.Advance, Window.Acknowledge, Window.Run, Smooth, U16;
    if WindowEvent(e) == [] {
      assert past + [] == past;
    } else {
      RunSnoc(past, WindowEvent(e)[0]);
    }
  }

  /** Corrupted replies, failed attempts and counted errors leave the window alone. */
  lemma {:induction false} WindowOfRun(events: seq<Event>)
    ensures Run(events).w == Window.Run(WindowEvents(events))
  {
    if |events| > 0 {
      hide Step, WindowEvent;
      var before, e := events[..|events| - 1], events[|events| - 1];
      WindowOfRun(before);
      WindowStep(Run(before), e, WindowEvents(before));
    }
  }

  // ---------- Conservation ----------

  /** Attempts that cleared a bit which was set. */
  function Erased(events: seq<Event>): nat {
    if |events| == 0 then 0
    else
      var before, e := events[..|events| - 1], events[|events| - 1];
      Erased(before) + if e.Attempt? && U16(Run(before).w.sent + 1) in Run(before).table then 1 else 0
  }

  function Replies(events: seq<Event>): nat {
    if |events| == 0 then 0
    else Replies(events[..|events| - 1]) + if events[|events| - 1].Reply? then 1 else 0
  }

  function Corrupted(events: seq<Event>): nat {
    if |events| == 0 then 0
    else
      var e := events[|events| - 1];
      Corrupted(events[..|events| - 1]) + if e.Reply? && e.csfailed then 1 else 0
  }

  function Failures(events: seq<Event>): nat {
    if |events| == 0 then 0
    else Failures(events[..|events| - 1]) + if events[|events| - 1].Failed? then 1 else 0
  }

  function Sends(events: seq<Event>): nat {
    if |events| == 0 then 0
    else Sends(events[..|events| - 1]) + if events[|events| - 1].Sent? then 1 else 0
  }

  lemma StepCounts(s: Stats, e: Event)
    ensures var t := Step(s, e);
            t.received - |t.table| == s.received - |s.table|
              + (if e.Attempt? && U16(s.w.sent + 1) in s.table then 1 else 0)
            && t.received + t.repeats + t.badsum == s.received + s.repeats + s.badsum + (if e.Reply? then 1 else 0)
            && t.badsum == s.badsum + (if e.Reply? && e.csfailed then 1 else 0)
            && t.errors == s.errors + (if e.Failed? then 1 else 0)
            && t.w.sent == s.w.sent + if e.Sent? then 1 else 0
  {
    hide Window.Acknowledge, Window.Advance;
  }

  /** Every answer counted first time is a set bit or was erased; every reply is counted once. */
  lemma {:induction false} Conservation(events: seq<Event>)
    ensures var s := Run(events);
            s.received == |s.table| + Erased(events)
            && s.received + s.repeats + s.badsum == Replies(events)
            && s.badsum == Corrupted(events) && s.errors == Failures(events)
            && s.w.sent == Sends(events)
  {
    if |events| > 0 {
      hide Step;
      Conservation(events[..|events| - 1]);
      StepCounts(Run(events[..|events| - 1]), events[|events| - 1]);
    }
  }

  /** Every reply with a good checksum answers a probe sent before it. */
  predicate AnswersSent(events: seq<Event>) {
    |events| == 0 ||
    var before, e := events[..|events| - 1], events[|events| - 1];
    AnswersSent(before) &&
    (e.Reply? && !e.csfailed ==> exists k | 1 <= k <= Sends(before) :: U16(k) == e.seqno)
  }

  function Numbers(n: nat): (s: set<uint16>)
    requires n < 0x1_0000
    ensures |s| == n && forall k: uint16 :: k in s <==> 1 <= k <= n
  {
    if n == 0 then {} else
      var s := Numbers(n - 1);
      assert n !in s;
      s + {n}
  }

  lemma NextIsNew(n: nat)
    requires n < 0x1_0000
    ensures U16(n + 1) !in Numbers(n)
    ensures n + 1 < 0x1_0000 ==> Numbers(n) <= Numbers(n + 1)
    ensures forall k | 1 <= k <= n :: U16(k) in Numbers(n)
  {
    hide Numbers;
    Window.Small(n + 1);
    assert U16(0x1_0000) == 0;
    forall k | 1 <= k <= n
      ensures U16(k) in Numbers(n)
    {
      Window.Small(k);
    }
  }

  lemma SubsetSize<T>(a: set<T>, b: set<T>)
    requires a <= b
    ensures |a| <= |b|
  {
    assert b == a + (b - a);
  }

  lemma StepTable(s: Stats, e: Event)
    ensures Step(s, e).table <= s.table + if e.Reply? && !e.csfailed then {e.seqno} else {}
  {
    hide Window.Acknowledge, Window.Advance;
  }

  lemma {:induction false} TableWithinSent(events: seq<Event>)
    requires AnswersSent(events) && Sends(events) < 0x1_0000
    ensures Run(events).table <= Numbers(Sends(events)) && Erased(events) == 0
  {
    if |events| > 0 {
      var before, e := events[..|events| - 1], events[|events| - 1];
      hide Step;
      TableWithinSent(before);
      Conservation(before);
      StepTable(Run(before), e);
      hide Numbers, U16;
      NextIsNew(Sends(before));
    }
  }

  /** With fewer than 65536 probes, no more first answers than probes, and as many as set bits. */
  lemma ReceivedAtMostSent(events: seq<Event>)
    requires AnswersSent(events) && Sends(events) < 0x1_0000
    ensures Run(events).received == |Run(events).table| <= Run(events).w.sent
  {
    Conservation(events);
    TableWithinSent(events);
    SubsetSize(Run(events).table, Numbers(Sends(events)));
  }

  // ---------- Why the bound on the probes is needed ----------

  /** After n probes, each sent at once and answered at once. */
  predicate Steady(events: seq<Event>, n: nat) {
    && AnswersSent(events) && Sends(events) == n
    && var s := Run(events);
    && s.received == n && s.w.sent == n
    && forall k: uint16 :: k in s.table <==> 1 <= k <= n || n >= 0x1_0000
  }

  lemma Extend(events: seq<Event>, e: Event)
    requires AnswersSent(events)
    requires e.Reply? && !e.csfailed ==> exists k | 1 <= k <= Sends(events) :: U16(k) == e.seqno
    ensures AnswersSent(events + [e])
    ensures Sends(events + [e]) == Sends(events) + if e.Sent? then 1 else 0
    ensures Run(events + [e]) == Step(Run(events), e)
  {
    assert (events + [e])[..|events|] == events;
  }

  lemma SteadyStep(events: seq<Event>, n: nat) returns (more: seq<Event>)
    requires Steady(events, n)
    ensures Steady(more, n + 1)
  {
    hide Step, U16, AnswersSent, Sends, Apply;
    var k := U16(n + 1);
    var r := Reply(k, false, None);
    Extend(events, Attempt);
    Extend(events + [Attempt], Sent);
    Extend(events + [Attempt] + [Sent], r);
    more := events + [Attempt] + [Sent] + [r];
    OneProbe(Run(events), k);
    NextNumber(n);
  }

  lemma NextNumber(n: nat)
    ensures n + 1 < 0x1_0000 ==> U16(n + 1) == n + 1
    ensures n + 1 == 0x1_0000 ==> U16(n + 1) == 0
  {
  }

  /** A probe and its answer: its number leaves the table, if it was there, and comes back. */
  lemma OneProbe(s: Stats, k: uint16)
    requires k == U16(s.w.sent + 1)
    ensures var t := Step(Step(Step(s, Attempt), Sent), Reply(k, false, None));
            t.received == s.received + 1 && t.w.sent == s.w.sent + 1 && t.table == s.table - {k} + {k}
  {
    hide Window.Acknowledge, Window.Advance, U16;
  }

  lemma SteadyRun(n: nat) returns (events: seq<Event>)
    ensures Steady(events, n)
  {
    if n == 0 {
      events := [];
    } else {
      events := SteadyRun(n - 1);
      events := SteadyStep(events, n - 1);
    }
  }

  /** From 65536 probes on, a repeated first answer can be counted once too often. */
  lemma OneReplyTooMany(n: nat) returns (events: seq<Event>)
    requires n >= 0x1_0000
    ensures AnswersSent(events) && Sends(events) == n && Run(events).w.sent == n && Run(events).received == n + 1
  {
    var steady := SteadyRun(n);
    var k := U16(n + 1);
    assert U16(n + 1 - 0x1_0000) == k && 1 <= n + 1 - 0x1_0000 <= n;
    hide Window.Acknowledge, Window.Advance, U16, AnswersSent, Sends, Apply;
    Extend(steady, Attempt);
    Extend(steady + [Attempt], Reply(k, false, None));
    events := steady + [Attempt] + [Reply(k, false, None)];
  }

  /** Fewer than 65536 probes is exactly when no run can count more first answers than probes. */
  lemma ReceivedBound(n: nat)
    ensures (forall events | AnswersSent(events) && Sends(events) == n :: Run(events).received <= Run(events).w.sent)
            <==> n < 0x1_0000
  {
    if n < 0x1_0000 {
      forall events | AnswersSent(events) && Sends(events) == n
        ensures Run(events).received <= Run(events).w.sent
      {
        ReceivedAtMostSent(events);
      }
    } else {
      var events := OneReplyTooMany(n);
      assert Run(events).received > Run(events).w.sent;
    }
  }

  // ---------- Round-trip times ----------

  /** The trip times that entered the statistics, in order. */
  function Sample(e: Event): seq<nat> {
    if e.Reply? && !e.csfailed && e.trip.Some? then [e.trip.value] else []
  }

  function Trips(events: seq<Event>): seq<nat> {
    if |events| == 0 then [] else Trips(events[..|events| - 1]) + Sample(events[|events| - 1])
  }

  lemma SmoothInRange(rtt: int, trip: int, tmin: int, tmax: int)
    requires 0 <= tmin && 8 * tmin <= rtt <= 8 * tmax + 7
    requires 0 <= trip && (rtt == 0 ==> tmin == 0)
    ensures var lo, hi := if trip < tmin then trip else tmin, if trip > tmax then trip else tmax;
            8 * lo <= Smooth(rtt, trip) <= 8 * hi + 7
    ensures rtt > 0 || trip > 0 ==> Smooth(rtt, trip) > 0
  {
  }

  /** A new sample has the weight of one eighth, up to the rounding of the fixed point. */
  lemma SmoothWeight(rtt: nat, trip: nat)
    requires rtt > 0
    ensures 7 * rtt + 8 * trip <= 8 * Smooth(rtt, trip) <= 7 * rtt + 8 * trip + 7
  {
  }

  function Distance(rtt: nat, trip: nat): nat {
    if rtt < 8 * trip then 8 * trip - rtt else if rtt > 8 * trip + 7 then rtt - (8 * trip + 7) else 0
  }

  /** A sample brings the average nearer, by an eighth of the distance and at least by one. */
  lemma SmoothApproaches(rtt: nat, trip: nat)
    ensures Smooth(rtt, trip) >= 0
    ensures Distance(rtt, trip) == 0 && rtt > 0 ==> Smooth(rtt, trip) == rtt
    ensures var d := Distance(Smooth(rtt, trip), trip);
            8 * d <= 7 * Distance(rtt, trip) && (Distance(rtt, trip) > 0 ==> d < Distance(rtt, trip))
  {
  }

  function SmoothAll(rtt: nat, trip: nat, n: nat): (r: int)
    ensures r >= 0
  {
    if n == 0 then rtt else
      SmoothApproaches(SmoothAll(rtt, trip, n - 1), trip);
      Smooth(SmoothAll(rtt, trip, n - 1), trip)
  }

  /** With equal samples the average gets there, from wherever it starts, and stays. */
  lemma {:induction false} SmoothArrives(rtt: nat, trip: nat, n: nat)
    ensures Distance(SmoothAll(rtt, trip, n), trip)
            <= if n <= Distance(rtt, trip) then Distance(rtt, trip) - n else 0
    ensures n >= Distance(rtt, trip) ==> 8 * trip <= SmoothAll(rtt, trip, n) <= 8 * trip + 7
  {
    if n > 0 {
      SmoothArrives(rtt, trip, n - 1);
      SmoothApproaches(SmoothAll(rtt, trip, n - 1), trip);
    }
  }

  /** What the statistics say of the trip times seen so far. */
  predicate Summary(s: Stats, trips: seq<nat>) {
    if trips == [] then s.tmin == LONG_MAX && s.tmax == 0 && s.rtt == 0
    else
      && s.tmin in trips && s.tmax in trips
      && (forall t | t in trips :: s.tmin <= t <= s.tmax)
      && 8 * s.tmin <= s.rtt <= 8 * s.tmax + 7
      && s.tmin <= s.rtt / 8 <= s.tmax
      && (s.rtt == 0 <==> s.tmax == 0)
  }

  lemma TimeSummary(s: Stats, trips: seq<nat>, trip: nat)
    requires Summary(s, trips) && trip <= MAX_TRIP
    ensures Summary(Time(s, trip), trips + [trip])
  {
    var all := trips + [trip];
    assert all[|trips|] == trip && forall t | t in trips :: t in all;
    if trips != [] {
      SmoothInRange(s.rtt, trip, s.tmin, s.tmax);
    }
  }

  lemma StepSummary(s: Stats, trips: seq<nat>, e: Event)
    requires Summary(s, trips) && forall t | t in Sample(e) :: t <= MAX_TRIP
    ensures Summary(Step(s, e), trips + Sample(e))
  {
    hide Summary, Smooth, Window.Acknowledge, Window.Advance;
    if Sample(e) != [] {
      var acked := s.(w := Window.Acknowledge(s.w, e.seqno));
      assert e.trip.value in Sample(e);
      SummaryOnly(s, acked, trips);
      TimeSummary(acked, trips, e.trip.value);
      SummaryOnly(Time(acked, e.trip.value), Step(s, e), trips + Sample(e));
    } else {
      assert trips + Sample(e) == trips;
      SummaryOnly(s, Step(s, e), trips);
    }
  }

  /** The extremes are exact and the average stays between them, whatever the order of the samples. */
  lemma {:induction false} AverageInRange(events: seq<Event>)
    requires forall t | t in Trips(events) :: t <= MAX_TRIP
    ensures Summary(Run(events), Trips(events))
  {
    if |events| > 0 {
      hide Summary, Step;
      var before, e := events[..|events| - 1], events[|events| - 1];
      assert Trips(events) == Trips(before) + Sample(e);
      assert forall t | t in Trips(before) || t in Sample(e) :: t in Trips(before) + Sample(e);
      AverageInRange(before);
      StepSummary(Run(before), Trips(before), e);
    } else {
      assert Summary(INITIAL, []);
    }
  }

  lemma SummaryOnly(s: Stats, t: Stats, trips: seq<nat>)
    requires Summary(s, trips) && s.tmin == t.tmin && s.tmax == t.tmax && s.rtt == t.rtt
    ensures Summary(t, trips)
  {
  }

  /** A clamped trip time fits the types the statistics use: its square is a signed 64-bit value. */
  lemma SquareFits(trip: int)
    requires 0 <= trip <= MAX_TRIP
    ensures 0 <= trip * trip <= LONG_MAX
  {
    SquareGrows(trip, MAX_TRIP);
  }

  lemma SquareGrows(x: nat, y: nat)
    requires x <= y
    ensures x * x <= y * y
  {
    assert y * y - x * x == (y - x) * (y + x);
  }

  // ---------- Trip time ----------

  const TV_SEC_MAX_VAL := 2147

  datatype TimeVal = TimeVal(sec: int, usec: int)

  /** The bytes of a struct timeval: two signed 64-bit numbers. */
  function StampBytes(t: TimeVal): (s: seq<byte>)
    requires InRange(t)
    ensures |s| == 16
  {
    Bytes64(t.sec) + Bytes64(t.usec)
  }

  predicate InRange(t: TimeVal) {
    -0x8000_0000_0000_0000 <= t.sec <= LONG_MAX && -0x8000_0000_0000_0000 <= t.usec <= LONG_MAX
  }

  function ReadStamp(s: seq<byte>): (t: TimeVal)
    requires |s| == 16
    ensures InRange(t)
  {
    TimeVal(Signed64(s[..8]), Signed64(s[8..]))
  }

  lemma StampRead(t: TimeVal)
    requires InRange(t)
    ensures ReadStamp(StampBytes(t)) == t
  {
    hide Bytes64, Signed64;
    SignedRead(t.sec);
    SignedRead(t.usec);
    var s := StampBytes(t);
    assert s[..8] == Bytes64(t.sec) && s[8..] == Bytes64(t.usec);
  }

  /** tvsub. */
  function Sub(out: TimeVal, start: TimeVal): TimeVal {
    var usec := out.usec - start.usec;
    if usec < 0 then TimeVal(out.sec - 1 - start.sec, usec + 1000000) else TimeVal(out.sec - start.sec, usec)
  }

  function Micros(t: TimeVal): int {
    1000000 * t.sec + t.usec
  }

  function ClampUsec(usec: int): int {
    if usec >= 1000000 then 999999 else if usec < 0 then 0 else usec
  }

  /** A trip time from a reading of the clock; differences out of range count as 0. */
  function Trip(end: TimeVal, stamp: TimeVal): int {
    var d := Sub(end, stamp);
    if d.sec > TV_SEC_MAX_VAL || d.sec < 0 then 0 else d.sec * 1000000 + ClampUsec(d.usec)
  }

  /** Whatever comes back over the network in place of the stamp, the trip time is in range. */
  lemma TripInRange(end: TimeVal, stamp: TimeVal)
    ensures 0 <= Trip(end, stamp) <= MAX_TRIP
  {
  }

  /** For well-formed readings it is the difference in microseconds. */
  lemma TripIsDifference(end: TimeVal, stamp: TimeVal)
    requires 0 <= stamp.usec < 1000000 && 0 <= end.usec < 1000000
    ensures var d := Micros(end) - Micros(stamp);
            Trip(end, stamp) == if 0 <= d <= MAX_TRIP then d else 0
  {
  }

  /** A stamp that is no proper time is cut to the second it seems to lie in. */
  lemma TripMalformed(end: TimeVal, stamp: TimeVal)
    requires 0 <= end.usec < 1000000
    ensures var s := end.sec - stamp.sec;
            && (stamp.usec <= end.usec - 1000000 ==>
                  Trip(end, stamp) == if 0 <= s <= TV_SEC_MAX_VAL then 1000000 * s + 999999 else 0)
            && (stamp.usec > end.usec + 1000000 ==>
                  Trip(end, stamp) == if 1 <= s <= TV_SEC_MAX_VAL + 1 then 1000000 * (s - 1) else 0)
  {
  }

  /** The reading that counts: a clock that went back is read again, once. */
  function Reading(tv: TimeVal, stamp: TimeVal, again: TimeVal, latency: bool): TimeVal {
    if !latency && Sub(tv, stamp).sec < 0 then again else tv
  }

  /** Unless the program takes its own receive times, a clock that went back is read once more. */
  lemma RestampedTrip(tv: TimeVal, stamp: TimeVal, again: TimeVal, latency: bool)
    requires 0 <= stamp.usec < 1000000 && 0 <= tv.usec < 1000000 && 0 <= again.usec < 1000000
    ensures var d := Micros(if Micros(tv) < Micros(stamp) && !latency then again else tv) - Micros(stamp);
            Trip(Reading(tv, stamp, again, latency), stamp) == if 0 <= d <= MAX_TRIP then d else 0
    ensures Sub(tv, stamp).sec < 0 <==> Micros(tv) < Micros(stamp)
  {
    TripIsDifference(Reading(tv, stamp, again, latency), stamp);
  }

  /**
   * The time from the stamp in a probe to its reply. After a clock that went back the program
   * takes its own receive times (`latency`).
   */
  method TripTime(tv: TimeVal, stamp: TimeVal, again: TimeVal, latency: bool) returns (trip: int, latency': bool)
    ensures trip == Trip(Reading(tv, stamp, again, latency), stamp)
    ensures latency' == (latency || Sub(tv, stamp).sec < 0)
  {
    latency' := latency;
    trip := 0;
    var out := tv;
    var restamp := true;
    while restamp
      invariant restamp ==> if latency' == latency then out == tv else out == Reading(tv, stamp, again, latency)
      invariant latency' != latency ==> !latency && Sub(tv, stamp).sec < 0
      invariant !restamp ==> trip == Trip(Reading(tv, stamp, again, latency), stamp)
      invariant !restamp ==> latency' == (latency || Sub(tv, stamp).sec < 0)
      decreases restamp, !latency'
    {
      restamp := false;
      out := Sub(out, stamp);
      out := out.(usec := ClampUsec(out.usec));
      if out.sec > TV_SEC_MAX_VAL {
        trip := 0;
      } else if out.sec < 0 {
        trip := 0;
        if !latency' {
          out := again;
          latency' := true;
          restamp := true;
        }
      } else {
        trip := out.sec * 1000000 + out.usec;
      }
    }
  }
}
