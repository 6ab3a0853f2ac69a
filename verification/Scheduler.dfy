// What pinger and schedule_exit do between the kernel's answers, as a state machine: the token
// bucket and the statistics together, over whole runs of ticks and arrivals (ping_common.c).
module Scheduler {
  import opened Words
  import opened Statistics
  import opened TokenBucket
  import W = Window

  /** Macro SCHINT. */
  function Schint(interval: int): int {
    if interval <= MIN_INTERVAL_MS then MIN_INTERVAL_MS else interval
  }

  /** The pause after a device queue overflow. */
  function Backoff(interval: int): int {
    var pause := Schint(DivC(interval, 2));
    if pause > 500 then 500 else pause
  }

  /** What pinger returns for an admitted call, given the tokens it leaves. */
  function Pause(interval: int, tokens: int, o: Outcome, hard: bool): int {
    match o
    case Delivered => interval - tokens
    case Again => MIN_INTERVAL_MS
    case NoBuffers => if hard then Schint(interval) else Backoff(interval)
    case _ => Schint(interval)
  }

  function Attempts(n: nat): seq<Event> {
    seq(n, _ => Attempt)
  }

  /** After the last attempt of one call: what its outcome does to the counters. */
  function Aftermath(o: Outcome, hard: bool): seq<Event> {
    match o
    case Delivered => [Sent]
    case NoBuffers => if hard then [Sent] else []
    case Again => []
    case TooBig => [Failed, Sent]
    case Icmp(seqno) => [Unreachable(seqno), Failed, Sent]
    case Local(counted) => if counted then [Failed, Sent] else [Sent]
  }

  /** One admitted call of pinger: `retries` immediate resends, then the outcome. */
  function ProbeEvents(retries: nat, o: Outcome, hard: bool): seq<Event> {
    Attempts(retries + 1) + Aftermath(o, hard)
  }

  lemma ApplyMore(s: Stats, first: seq<Event>, rest: seq<Event>)
    ensures Apply(s, first + rest) == Apply(Apply(s, first), rest)
  {
    if |rest| == 0 {
      assert first + rest == first;
    } else {
      var n := |rest| - 1;
      assert (first + rest)[..|first| + n] == first + rest[..n];
      ApplyMore(s, first, rest[..n]);
    }
  }

  lemma AttemptsOnly(s: Stats, n: nat)
    ensures Apply(s, Attempts(n)) == if n == 0 then s else s.(table := s.table - {U16(s.w.sent + 1)})
  {
    hide Apply, Step;
    NoEvents(s);
    if n > 0 {
      AttemptsOnly(s, n - 1);
      assert Attempts(n) == Attempts(n - 1) + [Attempt];
      ApplyOne(s, Attempts(n - 1), Attempt);
      AttemptAgain(s);
    } else {
      assert Attempts(n) == [];
    }
  }

  lemma NoEvents(s: Stats)
    ensures Apply(s, []) == s
  {
  }

  lemma FailedOnly(s: Stats)
    ensures Step(s, Failed) == s.(errors := s.errors + 1)
  {
  }

  /** Clearing the bit of the next number twice is clearing it once. */
  lemma AttemptAgain(s: Stats)
    ensures Step(s, Attempt) == s.(table := s.table - {U16(s.w.sent + 1)})
    ensures Step(Step(s, Attempt), Attempt) == Step(s, Attempt)
  {
    hide U16;
  }

  /** However often it is tried and however it ends, one call sends at most one probe. */
  lemma SentOnce(s: Stats, retries: nat, o: Outcome, hard: bool)
    ensures Apply(s, ProbeEvents(retries, o, hard)).w.sent
         == s.w.sent + if o.Again? || (o.NoBuffers? && !hard) then 0 else 1
    ensures Apply(s, ProbeEvents(retries, o, hard)).tmax == s.tmax
  {
    hide W.Acknowledge, W.Advance, Apply;
    AttemptsOnly(s, retries + 1);
    var t := Apply(s, Attempts(retries + 1));
    ApplyMore(s, Attempts(retries + 1), Aftermath(o, hard));
    FewSteps(t, Sent, Sent, Sent);
    FewSteps(t, Failed, Sent, Sent);
    if o.Icmp? {
      FewSteps(t, Unreachable(o.seqno), Failed, Sent);
    }
  }

  lemma NoTimePasses(now: Instant)
    ensures ElapsedMs(now, now) == 0
  {
  }

  lemma Spend(interval: int, preload: int, n: nat, tokens: int)
    requires 0 < interval && 0 <= tokens <= interval * (preload - n) - interval
    ensures n < preload && tokens <= interval * (preload - (n + 1))
  {
    var r := preload - n;
    MultipleGrows(interval, r);
    assert interval * (r - 1) == interval * r - interval;
    assert r - 1 == preload - (n + 1);
  }

  lemma FewSteps(s: Stats, d: Event, e: Event, f: Event)
    ensures Apply(s, []) == s && Apply(s, [d]) == Step(s, d)
    ensures Apply(s, [d, e]) == Step(Step(s, d), e)
    ensures Apply(s, [d, e, f]) == Step(Step(Step(s, d), e), f)
  {
    hide Step;
    assert [] + [d] == [d] && [d] + [e] == [d, e] && [d, e] + [f] == [d, e, f];
    ApplyOne(s, [], d);
    ApplyOne(s, [d], e);
    ApplyOne(s, [d, e], f);
  }

  // ---------- One call ----------

  /** The parameters of a run. */
  datatype Setup = Setup(
    interval: int,
    preload: int,
    npackets: int,
    deadline: int,
    lingertime: uint32)
  {
    predicate Valid() {
      Accepted(interval, preload) && npackets >= 0
    }

    /** Everything asked for has been sent. */
    predicate AllSent(sent: nat) {
      npackets != 0 && sent >= npackets && deadline == 0
    }

    /** A device queue overflow counts as a hard error once the pauses add up to the linger time. */
    predicate Stuck(oomCount: int) {
      (oomCount + 1) * Backoff(interval) % 0x1_0000_0000 >= lingertime / 1000
    }
  }

  /** What is kept between two calls. */
  datatype Moment = Moment(
    stats: Stats,
    gate: Gate,
    oomCount: int,
    rttAddend: int,
    waittime: int,
    exiting: bool)
  {
    function InFlight(): int {
      W.InFlight(stats.w, stats.received, stats.errors)
    }
  }

  const START := Moment(INITIAL, Gate(0, UNSET), 0, 0, 0, false)

  function Slowdown(rtt: int): int {
    if rtt < 8 * 50000 then rtt / 8 else 50000
  }

  /** pinger after the rate check has taken a token. */
  function Probe(c: Setup, m: Moment, retries: nat, o: Outcome): (Moment, int) {
    var hard := c.Stuck(m.oomCount);
    var tokens := Settle(m.gate.tokens, c.interval, o);
    (m.(stats := Apply(m.stats, ProbeEvents(retries, o, hard)),
        gate := m.gate.(tokens := tokens),
        oomCount := if o.Delivered? then 0 else if o.NoBuffers? then m.oomCount + 1 else m.oomCount,
        rttAddend := m.rttAddend + if o.NoBuffers? then Slowdown(m.stats.rtt) else 0),
     Pause(c.interval, tokens, o, hard))
  }

  /** pinger: the state after it and what it returns. */
  function Ping(c: Setup, m: Moment, now: Instant, retries: nat, o: Outcome): (Moment, int) {
    if m.exiting || c.AllSent(m.stats.w.sent) then (m, 1000)
    else
      match Admit(m.gate, c.interval, c.preload, now, m.InFlight() >= c.preload)
      case Wait(ms) => (m, ms)
      case Go(g, _) => Probe(c, m.(gate := g), retries, o)
  }

  /** The conversion of a wider integer to int. */
  function Int32(x: int): int {
    if x % 0x1_0000_0000 < 0x8000_0000 then x % 0x1_0000_0000 else x % 0x1_0000_0000 - 0x1_0000_0000
  }

  /** 1000 * interval in an int, where it wraps, converted to unsigned long. */
  function IntervalMicros(interval: int): nat {
    var product := Int32(1000 * interval);
    if product < 0 then product + 0x1_0000_0000_0000_0000 else product
  }

  /** The time __schedule_exit allows for the last replies, in microseconds. */
  function LastWait(c: Setup, m: Moment): int {
    if m.stats.received == 0 then c.lingertime
    else if 2 * m.stats.tmax < 1000 * c.interval then IntervalMicros(c.interval)
    else 2 * m.stats.tmax
  }

  /** schedule_exit with __schedule_exit: once, when all is sent, allow time for the last replies. */
  function Exit(c: Setup, m: Moment, next: int): (Moment, int) {
    if !c.AllSent(m.stats.w.sent) || m.waittime != 0 then (m, next)
    else
      var wait := LastWait(c, m);
      (m.(waittime := wait), if next < wait / 1000 then Int32(wait / 1000) else next)
  }

  lemma Int32Is(x: int, k: int, r: int)
    requires x == 0x1_0000_0000 * k + r && 0 <= r < 0x1_0000_0000
    ensures Int32(x) == if r < 0x8000_0000 then r else r - 0x1_0000_0000
  {
    DivMod(x, 0x1_0000_0000, k, r);
  }

  /** A negative product, as an unsigned number of microseconds, cut to an int of milliseconds. */
  lemma HugeWait(micros: int)
    requires 0x1_0000_0000_0000_0000 - 0x8000_0000 <= micros < 0x1_0000_0000_0000_0000
    ensures Int32(micros / 1000) == micros / 1000 - 0x1_0000_0000 * 4294967 > 1_000_000_000
  {
    Int32Is(micros / 1000, 4294967, micros / 1000 - 0x1_0000_0000 * 4294967);
  }

  lemma Product(interval: int)
    requires 0 <= interval <= INT_MAX
    ensures IntervalMicros(interval) == 1000 * interval <==> interval <= 2147483
    ensures IntervalMicros(interval) / 1000 <= 2147483 || 1_000_000_000 < Int32(IntervalMicros(interval) / 1000)
  {
    hide Int32;
    var x := 1000 * interval;
    var k, r := x / 0x1_0000_0000, x % 0x1_0000_0000;
    Int32Is(x, k, r);
    if r >= 0x8000_0000 {
      HugeWait(r - 0x1_0000_0000 + 0x1_0000_0000_0000_0000);
    }
  }

  /**
   * Once replies have come, the program means to wait for one interval or twice the longest trip,
   * whichever is more. It does so exactly when twice the trip is not less or the interval in
   * microseconds fits an int.
   */
  lemma LastWaitIs(c: Setup, m: Moment)
    requires 0 <= c.interval <= INT_MAX && m.stats.received != 0
    ensures LastWait(c, m) == (if 2 * m.stats.tmax < 1000 * c.interval then 1000 * c.interval else 2 * m.stats.tmax)
            <==> 2 * m.stats.tmax >= 1000 * c.interval || c.interval <= 2147483
  {
    Product(c.interval);
    hide IntervalMicros;
  }

  /** With an interval of one hour, the wait is of half a million years, and the next call due in 14 days. */
  lemma OneHour(c: Setup, m: Moment)
    requires c.interval == 3_600_000 && c.AllSent(m.stats.w.sent) && m.waittime == 0
    requires m.stats.received == 1 && m.stats.tmax == 50_000
    ensures Exit(c, m, 1000) == (m.(waittime := 18446744073014584320), 1270615352)
  {
    hide Int32;
    Int32Is(3_600_000_000, 0, 3_600_000_000);
    HugeWait(18446744073014584320);
  }

  /** What is left of a wait whose product wrapped to a negative number, in an int of milliseconds. */
  function WrappedWait(interval: int): int {
    (0x1_0000_0000_0000_0000 - 0x1_0000_0000 + 1000 * interval % 0x1_0000_0000) / 1000 - 0x1_0000_0000 * 4294967
  }

  /**
   * schedule_exit is meant never to lower the time of the next call. It does so exactly when it
   * allows one interval for the last replies, the interval in microseconds wraps to a negative
   * int, and the time was later than what is then left of the wait.
   */
  lemma ExitLowers(c: Setup, m: Moment, next: int)
    requires 0 <= c.interval <= INT_MAX && 0 <= m.stats.tmax <= MAX_TRIP && next <= INT_MAX
    ensures Exit(c, m, next).1 < next <==>
            && c.AllSent(m.stats.w.sent) && m.waittime == 0 && m.stats.received != 0
            && 2 * m.stats.tmax < 1000 * c.interval
            && 1000 * c.interval % 0x1_0000_0000 >= 0x8000_0000
            && next > WrappedWait(c.interval)
  {
    hide Int32;
    var x := 1000 * c.interval;
    var k, r := x / 0x1_0000_0000, x % 0x1_0000_0000;
    Int32Is(x, k, r);
    if r >= 0x8000_0000 {
      HugeWait(r - 0x1_0000_0000 + 0x1_0000_0000_0000_0000);
    } else {
      Int32Is(r / 1000, 0, r / 1000);
    }
    Fits(m.stats.tmax);
    Int32Is(c.lingertime / 1000, 0, c.lingertime / 1000);
  }

  /** With 2000000 s between probes and one of two answered, the next call comes 8 days too early. */
  lemma Lowered(c: Setup, m: Moment)
    requires c.interval == 2_000_000_000 && c.AllSent(m.stats.w.sent) && m.waittime == 0
    requires m.stats.received == 1 && m.stats.tmax == 50_000
    ensures Exit(c, m, 2_000_000_000).1 == 1_269_855_559
  {
    hide Int32;
    Int32Is(2_000_000_000_000, 465, 2_840_207_360);
    HugeWait(18_446_744_072_254_791_680);
  }

  /** Far from that, or where the product fits, it keeps its promise. */
  lemma ExitNeverLowers(c: Setup, m: Moment, next: int)
    requires 0 <= c.interval <= INT_MAX && 0 <= m.stats.tmax <= MAX_TRIP
    ensures Exit(c, m, next).1 >= next || (next > 1_000_000_000 && Exit(c, m, next).1 > 1_000_000_000)
    ensures c.interval <= 2147483 ==> Exit(c, m, next).1 >= next
  {
    Product(c.interval);
    Fits(m.stats.tmax);
    hide IntervalMicros;
  }

  lemma Fits(tmax: int)
    requires 0 <= tmax <= MAX_TRIP
    ensures Int32(2 * tmax / 1000) == 2 * tmax / 1000
  {
    Int32Is(2 * tmax / 1000, 0, 2 * tmax / 1000);
  }

  /** One turn of the sending loop of main_loop. */
  function Turn(c: Setup, m: Moment, now: Instant, retries: nat, o: Outcome): (Moment, int) {
    var (n, next) := Ping(c, m, now, retries, o);
    Exit(c, n, next)
  }

  /** A call sends at most one probe, and none once everything asked for has been sent. */
  lemma PingSends(c: Setup, m: Moment, now: Instant, retries: nat, o: Outcome)
    ensures var n := Ping(c, m, now, retries, o).0;
            && m.stats.w.sent <= n.stats.w.sent <= m.stats.w.sent + 1
            && (c.npackets > 0 && c.deadline == 0 && m.stats.w.sent <= c.npackets ==> n.stats.w.sent <= c.npackets)
            && n.stats.tmax == m.stats.tmax
  {
    hide Admit, Apply, ProbeEvents;
    SentOnce(m.stats, retries, o, c.Stuck(m.oomCount));
  }

  // ---------- What one call does ----------

  /** Every counter after an admitted call, by the outcome of its last send. */
  lemma ProbeCounts(c: Setup, m: Moment, retries: nat, o: Outcome)
    ensures var t := Probe(c, m, retries, o).0;
            var hard := c.Stuck(m.oomCount);
            var s, u := m.stats, t.stats;
            && u.errors == s.errors + (if o.TooBig? || o.Icmp? || o == Local(true) then 1 else 0)
            && u.w.sent == s.w.sent + (if o.Again? || (o.NoBuffers? && !hard) then 0 else 1)
            && u.table == s.table - {U16(s.w.sent + 1)}
            && u.w == (if o.Again? || (o.NoBuffers? && !hard) then s.w
                       else W.Advance(if o.Icmp? then W.Acknowledge(s.w, o.seqno) else s.w))
            && (u.received, u.repeats, u.badsum) == (s.received, s.repeats, s.badsum)
            && (u.tmin, u.tmax, u.rtt) == (s.tmin, s.tmax, s.rtt)
            && t.oomCount == (match o case Delivered => 0 case NoBuffers => m.oomCount + 1 case _ => m.oomCount)
            && (t.gate.last, t.waittime, t.exiting) == (m.gate.last, m.waittime, m.exiting)
            && t.rttAddend == m.rttAddend
                 + if !o.NoBuffers? then 0 else if s.rtt / 8 < 50000 then s.rtt / 8 else 50000
  {
    hide W.Acknowledge, W.Advance, Apply, Step, Pause, Settle, Setup.Stuck, U16;
    var s, hard := m.stats, c.Stuck(m.oomCount);
    AttemptsOnly(s, retries + 1);
    ApplyMore(s, Attempts(retries + 1), Aftermath(o, hard));
    AftermathCounts(s.(table := s.table - {U16(s.w.sent + 1)}), o, hard);
  }

  lemma AftermathCounts(s: Stats, o: Outcome, hard: bool)
    ensures Apply(s, Aftermath(o, hard)) ==
              var counted := o.TooBig? || o.Icmp? || o == Local(true);
              var sent := !o.Again? && (!o.NoBuffers? || hard);
              var w := if o.Icmp? then W.Acknowledge(s.w, o.seqno) else s.w;
              s.(errors := s.errors + (if counted then 1 else 0), w := if sent then W.Advance(w) else w)
  {
    hide W.Acknowledge, W.Advance, Apply;
    FewSteps(s, Sent, Sent, Sent);
    FewSteps(s, Failed, Sent, Sent);
    if o.Icmp? {
      FewSteps(s, Unreachable(o.seqno), Failed, Sent);
    }
  }

  /**
   * After a delivered probe and a positive interval, the time asked for is exactly the time after
   * which the next call is admitted; not positive means at once.
   */
  lemma DueAfterDelivery(c: Setup, m: Moment, retries: nat, later: Instant, busy: bool)
    requires c.Valid() && c.interval > 0 && m.gate.last != UNSET
    ensures var (t, next) := Probe(c, m, retries, Delivered);
            Admit(t.gate, c.interval, c.preload, later, busy).Go? <==> ElapsedMs(m.gate.last, later) >= next
  {
    hide ElapsedMs, Apply, ProbeEvents, Setup.Stuck;
    AtLeastOne(c.interval, c.preload);
  }

  /**
   * After a failure: a full socket buffer is tried again in 10 ms, which its refunded token allows;
   * an overflow waits half an interval, between 10 and 500 ms; any other failure waits for one
   * interval or 10 ms, after which a call is admitted.
   */
  lemma DueAfterFailure(c: Setup, m: Moment, retries: nat, o: Outcome, later: Instant, busy: bool)
    requires c.Valid() && c.interval > 0 && m.gate.last != UNSET && 0 <= m.gate.tokens && !o.Delivered?
    ensures var (t, next) := Probe(c, m, retries, o);
            var e := ElapsedMs(m.gate.last, later);
            var admitted := Admit(t.gate, c.interval, c.preload, later, busy).Go?;
            if o.Again? then next == 10 && (e >= 0 ==> admitted)
            else if o.NoBuffers? && !c.Stuck(m.oomCount) then
              10 <= next <= 500 && (20 <= c.interval <= 1001 ==> 2 * next <= c.interval <= 2 * next + 1)
              && (c.interval < 20 ==> next == 10) && (c.interval > 1001 ==> next == 500)
            else next >= 10 && next >= c.interval && next in {10, c.interval} && (admitted <==> e >= c.interval)
  {
    hide ElapsedMs, Apply, ProbeEvents, Setup.Stuck;
    AtLeastOne(c.interval, c.preload);
  }

  /** An overflow is taken for a hard error once n pauses in a row amount to the linger time. */
  lemma GivesUp(c: Setup, n: nat)
    requires c.Valid() && 0 < n * Backoff(c.interval) < 0x1_0000_0000
    ensures c.Stuck(n - 1) <==> 1000 * (n * Backoff(c.interval)) + 999 >= c.lingertime
    ensures 10 <= Backoff(c.interval) <= 500
  {
    hide Backoff;
    BackoffIs(c.interval);
  }

  lemma BackoffIs(interval: int)
    ensures 10 <= Backoff(interval) <= 500
  {
  }

  /** When all is sent, or a signal came, a call does nothing and asks for a second. */
  lemma NothingToSend(c: Setup, m: Moment, now: Instant, retries: nat, o: Outcome)
    requires m.exiting || (c.npackets > 0 && m.stats.w.sent >= c.npackets && c.deadline == 0)
    ensures Ping(c, m, now, retries, o) == (m, 1000)
  {
  }

  /** Otherwise the rate check decides, and no last wait is set. */
  lemma StillSending(c: Setup, m: Moment, now: Instant, retries: nat, o: Outcome, next: int)
    requires !m.exiting && (c.npackets == 0 || m.stats.w.sent < c.npackets || c.deadline != 0)
    ensures Exit(c, m, next) == (m, next)
    ensures match Admit(m.gate, c.interval, c.preload, now, m.InFlight() >= c.preload)
            case Wait(ms) => Ping(c, m, now, retries, o) == (m, ms)
            case Go(g, _) => Ping(c, m, now, retries, o) == Probe(c, m.(gate := g), retries, o)
  {
    hide Admit, Probe, LastWait;
  }

  /** When everything is sent and nothing has come back, the last wait is the linger time. */
  lemma Lingers(c: Setup, m: Moment, next: int)
    requires c.npackets > 0 && m.stats.w.sent >= c.npackets && c.deadline == 0
    requires m.waittime == 0 && m.stats.received == 0
    ensures var (t, due) := Exit(c, m, next);
            && t == m.(waittime := c.lingertime)
            && due == if next < c.lingertime / 1000 then c.lingertime / 1000 else next
  {
    Int32Is(c.lingertime / 1000, 0, c.lingertime / 1000);
    hide Int32;
  }

  // ---------- The sending loop ----------

  /** The sending loop of main_loop from a given state, while the clock stands still. */
  datatype Burst = Burst(c: Setup, start: Moment, now: Instant, retries: nat -> nat, outcome: nat -> Outcome) {
    /** The state after n turns and what the last of them returned. */
    function After(n: nat): (Moment, int) {
      if n == 0 then (start, 0) else Turn(c, After(n - 1).0, now, retries(n - 1), outcome(n - 1))
    }

    lemma Begin()
      requires Ready(c, start, now)
      ensures Running(this, 0, start)
    {
    }

    lemma Continue(n: nat, m: Moment)
      requires Running(this, n, m)
      ensures var (t, next) := Turn(c, m, now, retries(n), outcome(n));
              if next > 0 then Ended(this, n + 1, t, next) else n < c.preload && Running(this, n + 1, t)
    {
      hide Turn, Drained, Ready, Accepted;
      TurnDrains(c, m, now, retries(n), outcome(n), n);
      assert After(n + 1) == Turn(c, m, now, retries(n), outcome(n));
    }
  }

  /** The loop goes on: every turn so far asked for another one at once and took a token. */
  ghost predicate Running(b: Burst, n: nat, m: Moment) {
    && b.c.Valid() && b.c.interval > 0 && b.now.Valid()
    && m == b.After(n).0 && (forall k | 0 < k <= n :: b.After(k).1 <= 0)
    && 0 <= m.stats.tmax <= MAX_TRIP && n <= b.c.preload && m.stats.w.sent <= b.start.stats.w.sent + n
    && if n == 0 then Ready(b.c, m, b.now) else Drained(b.c, m, b.now, n)
  }

  /**
   * The loop has ended with its n-th turn, the first not to ask for another one. At most `preload`
   * turns send; when there was one turn more, that one did not touch the statistics.
   */
  ghost predicate Ended(b: Burst, n: nat, m: Moment, next: int) {
    && 0 < n <= b.c.preload + 1
    && (m, next) == b.After(n) && next > 0 && (forall k | 0 < k < n :: b.After(k).1 <= 0)
    && m.stats.w.sent <= b.start.stats.w.sent + b.c.preload
    && (n == b.c.preload + 1 ==> m.stats == b.After(n - 1).0.stats)
  }

  /** The bucket after n admissions at one moment: each took a token. */
  predicate Drained(c: Setup, m: Moment, now: Instant, n: nat) {
    m.gate.last == now && 0 <= m.gate.tokens <= c.interval * (c.preload - n)
  }

  /** Where the loop starts: the bucket is as an earlier call left it, the trip times were clamped. */
  predicate Ready(c: Setup, m: Moment, now: Instant) {
    && c.Valid() && c.interval > 0 && now.Valid() && 0 <= m.stats.tmax <= MAX_TRIP
    && (m.gate.last == UNSET ||
        (m.gate.last.Valid() && m.gate.last.Nanos() <= now.Nanos() && 0 <= m.gate.tokens <= c.interval * c.preload))
  }

  /** A call that asks for another one at once has taken a token; without one it changes nothing. */
  lemma PingDrains(c: Setup, m: Moment, now: Instant, retries: nat, o: Outcome, n: nat)
    requires c.Valid() && c.interval > 0 && now.Valid() && n <= c.preload
    requires if n == 0 then Ready(c, m, now) else Drained(c, m, now, n)
    ensures var (t, next) := Ping(c, m, now, retries, o);
            && (next <= 0 ==> n < c.preload && Drained(c, t, now, n + 1))
            && (n == c.preload ==> t.stats == m.stats)
  {
    hide Admit, ElapsedMs, Apply, ProbeEvents, Setup.Stuck, Accepted, Slowdown;
    var v := Admit(m.gate, c.interval, c.preload, now, m.InFlight() >= c.preload);
    AdmitBounds(m.gate, c.interval, c.preload, now, m.InFlight() >= c.preload);
    NoTimePasses(now);
    if v.Go? {
      Spend(c.interval, c.preload, n, v.gate.tokens);
    }
  }

  lemma TurnDrains(c: Setup, m: Moment, now: Instant, retries: nat, o: Outcome, n: nat)
    requires c.Valid() && c.interval > 0 && now.Valid() && n <= c.preload && 0 <= m.stats.tmax <= MAX_TRIP
    requires if n == 0 then Ready(c, m, now) else Drained(c, m, now, n)
    ensures var (t, next) := Turn(c, m, now, retries, o);
            && (next <= 0 ==> n < c.preload && Drained(c, t, now, n + 1))
            && (n == c.preload ==> t.stats == m.stats)
            && m.stats.w.sent <= t.stats.w.sent <= m.stats.w.sent + 1 && t.stats.tmax == m.stats.tmax
  {
    hide Ping, LastWait, Int32, Ready, Accepted;
    assert c.interval <= INT_MAX by { NoOverflow(c.interval, c.preload); MultipleGrows(c.interval, c.preload); }
    PingDrains(c, m, now, retries, o, n);
    PingSends(c, m, now, retries, o);
    var (p, next) := Ping(c, m, now, retries, o);
    ExitNeverLowers(c, p, next);
  }

  // ---------- The first burst ----------

  /** Setup and outcomes for which nothing stands in the way of the whole preload. */
  ghost predicate Unhindered(b: Burst) {
    && b.c.Valid() && b.c.interval > 0 && b.now.Valid() && b.start == START
    && (b.c.npackets == 0 || b.c.preload < b.c.npackets || b.c.deadline != 0)
    && forall n :: b.outcome(n) == Delivered
  }

  /** After n probes of the first burst, n tokens are gone. */
  predicate Burnt(c: Setup, m: Moment, now: Instant, n: nat) {
    && m.stats.w.sent == n && !m.exiting
    && m.gate == if n == 0 then Gate(0, UNSET) else Gate(c.interval * (c.preload - n), now)
  }

  lemma BurstTurn(c: Setup, m: Moment, now: Instant, retries: nat, n: nat)
    requires c.Valid() && c.interval > 0 && now.Valid() && n < c.preload && Burnt(c, m, now, n)
    requires c.npackets == 0 || c.preload < c.npackets || c.deadline != 0
    ensures var (t, next) := Turn(c, m, now, retries, Delivered);
            Burnt(c, t, now, n + 1) && next == c.interval - c.interval * (c.preload - (n + 1))
  {
    hide Apply, ProbeEvents, ElapsedMs, Setup.Stuck, LastWait, Int32, Accepted;
    NoTimePasses(now);
    BurstTokens(c.interval, c.preload, n);
    SentOnce(m.stats, retries, Delivered, c.Stuck(m.oomCount));
  }

  lemma BurstTokens(interval: int, preload: int, n: nat)
    requires interval > 0 && n < preload
    ensures interval <= interval * (preload - n) <= interval * preload
    ensures interval * (preload - n) - interval == interval * (preload - (n + 1))
    ensures interval * (preload - (n + 1)) >= 0
  {
    MultipleGrows(interval, preload - n);
    MultipleGrows(interval, n);
    assert interval * preload == interval * (preload - n) + interval * n;
    assert interval * (preload - n) == interval * (preload - (n + 1)) + interval;
  }

  lemma {:induction false} BurstAfter(b: Burst, n: nat)
    requires Unhindered(b) && n <= b.c.preload
    ensures Burnt(b.c, b.After(n).0, b.now, n)
    ensures n > 0 ==> b.After(n).1 == b.c.interval - b.c.interval * (b.c.preload - n)
  {
    hide Turn, Burnt;
    if n > 0 {
      BurstAfter(b, n - 1);
      BurstTurn(b.c, b.After(n - 1).0, b.now, b.retries(n - 1), n - 1);
    } else {
      BurstBegins(b);
    }
  }

  lemma BurstBegins(b: Burst)
    requires Unhindered(b)
    ensures Burnt(b.c, b.After(0).0, b.now, 0)
  {
  }

  /**
   * When every send is delivered, the sending loop of a fresh start ends after exactly `preload`
   * turns, each of which sends, and asks for one interval; one more call at once is refused.
   */
  lemma FirstBurst(b: Burst)
    requires Unhindered(b)
    ensures forall n | 0 < n <= b.c.preload :: BurstAt(b, n)
    ensures forall busy ::
              Admit(b.After(b.c.preload).0.gate, b.c.interval, b.c.preload, b.now, busy) == Wait(b.c.interval)
  {
    hide Unhindered, Burst.After, Burnt, Admit;
    forall n | 0 < n <= b.c.preload
      ensures BurstAt(b, n)
    {
      BurstStep(b, n);
    }
    BurstRefused(b);
  }

  /** The state after n turns of the first burst. */
  ghost predicate BurstAt(b: Burst, n: nat) {
    && b.After(n).0.stats.w.sent == n
    && (n < b.c.preload ==> b.After(n).1 <= 0) && (n == b.c.preload ==> b.After(n).1 == b.c.interval)
  }

  lemma BurstStep(b: Burst, n: nat)
    requires Unhindered(b) && 0 < n <= b.c.preload
    ensures BurstAt(b, n)
  {
    hide Burst.After, Accepted;
    BurstAfter(b, n);
    if n < b.c.preload {
      BurstTokens(b.c.interval, b.c.preload, n);
    }
  }

  lemma BurstRefused(b: Burst)
    requires Unhindered(b)
    ensures b.c.preload > 0
    ensures forall busy ::
              Admit(b.After(b.c.preload).0.gate, b.c.interval, b.c.preload, b.now, busy) == Wait(b.c.interval)
  {
    hide Burst.After, ElapsedMs;
    BurstAfter(b, b.c.preload);
    NoTimePasses(b.now);
    AtLeastOne(b.c.interval, b.c.preload);
  }

  // ---------- Whole runs ----------

  /** What can happen: a turn of the sending loop, a message from the network, a signal to stop. */
  datatype Action =
    | Tick(now: Instant, retries: nat, outcome: Outcome)
    | Arrival(event: Event)
    | Interrupt

  function Act(c: Setup, m: Moment, a: Action): Moment {
    match a
    case Tick(now, retries, o) => Turn(c, m, now, retries, o).0
    case Arrival(e) => m.(stats := Step(m.stats, e))
    case Interrupt => m.(exiting := true)
  }

  function Live(c: Setup, actions: seq<Action>): Moment {
    if |actions| == 0 then START
    else Act(c, Live(c, actions[..|actions| - 1]), actions[|actions| - 1])
  }

  /** What arrives is a reply, or an error that acknowledges or is counted; it does not send probes. */
  predicate Possible(actions: seq<Action>) {
    forall a | a in actions && a.Arrival? :: Incoming(a.event)
  }

  predicate Incoming(e: Event) {
    !e.Attempt? && !e.Sent?
  }

  /** The call that an action makes of the rate check. */
  function CallOf(c: Setup, m: Moment, a: Action): seq<Call> {
    if !a.Tick? || m.exiting || c.AllSent(m.stats.w.sent) then []
    else [Call(a.now, m.InFlight() >= c.preload, a.outcome)]
  }

  function Calls(c: Setup, actions: seq<Action>): seq<Call> {
    if |actions| == 0 then []
    else
      var before := actions[..|actions| - 1];
      Calls(c, before) + CallOf(c, Live(c, before), actions[|actions| - 1])
  }

  /** What an action does to the statistics. */
  function EventsOf(c: Setup, m: Moment, a: Action): seq<Event> {
    match a
    case Arrival(e) => [e]
    case Interrupt => []
    case Tick(now, retries, o) =>
      if m.exiting || c.AllSent(m.stats.w.sent)
         || Admit(m.gate, c.interval, c.preload, now, m.InFlight() >= c.preload).Wait? then []
      else ProbeEvents(retries, o, c.Stuck(m.oomCount))
  }

  function Events(c: Setup, actions: seq<Action>): seq<Event> {
    if |actions| == 0 then []
    else
      var before := actions[..|actions| - 1];
      Events(c, before) + EventsOf(c, Live(c, before), actions[|actions| - 1])
  }

  lemma ActEvents(c: Setup, m: Moment, a: Action)
    ensures Act(c, m, a).stats == Apply(m.stats, EventsOf(c, m, a))
  {
    hide Step, Admit, ProbeEvents;
    if a.Arrival? {
      assert [a.event][..0] == [];
      assert Apply(m.stats, []) == m.stats;
    }
  }

  /** The statistics of a run are those of its events, so all that is proved of those holds here. */
  lemma {:induction false} LiveStatistics(c: Setup, actions: seq<Action>)
    ensures Live(c, actions).stats == Statistics.Run(Events(c, actions))
  {
    if |actions| > 0 {
      hide Act, EventsOf;
      var before, a := actions[..|actions| - 1], actions[|actions| - 1];
      LiveStatistics(c, before);
      ActEvents(c, Live(c, before), a);
      ApplyMore(INITIAL, Events(c, before), EventsOf(c, Live(c, before), a));
    }
  }

  /** The bucket of a run and its ledger agree, and only admitted calls send. */
  predicate Booked(c: Setup, m: Moment, l: Ledger) {
    && m.gate == l.gate
    && m.stats.w.sent <= l.admitted - l.refunded
    && (c.npackets > 0 && c.deadline == 0 ==> m.stats.w.sent <= c.npackets)
  }

  lemma ArrivalSends(s: Stats, e: Event)
    requires Incoming(e)
    ensures Step(s, e).w.sent == s.w.sent
  {
    hide W.Acknowledge, Smooth;
  }

  lemma ActBooked(c: Setup, m: Moment, a: Action, l: Ledger)
    requires Booked(c, m, l) && (a.Arrival? ==> Incoming(a.event))
    ensures var calls := CallOf(c, m, a);
            Booked(c, Act(c, m, a), if calls == [] then l else Account(l, c.interval, c.preload, calls[0]))
  {
    hide Step, Admit, Apply, ProbeEvents;
    match a
    case Arrival(e) => ArrivalSends(m.stats, e);
    case Interrupt =>
    case Tick(now, retries, o) => SentOnce(m.stats, retries, o, c.Stuck(m.oomCount));
  }

  lemma {:induction false} LiveBooked(c: Setup, actions: seq<Action>)
    requires Possible(actions) && c.npackets >= 0
    ensures Booked(c, Live(c, actions), TokenBucket.Run(c.interval, c.preload, Calls(c, actions)))
  {
    if |actions| > 0 {
      hide Act, Account, Booked, CallOf;
      var before, a := actions[..|actions| - 1], actions[|actions| - 1];
      assert forall b | b in before :: b in actions;
      LiveBooked(c, before);
      ActBooked(c, Live(c, before), a, TokenBucket.Run(c.interval, c.preload, Calls(c, before)));
      var calls := CallOf(c, Live(c, before), a);
      assert |calls| <= 1 by { CallCount(c, Live(c, before), a); }
      if calls == [] {
        assert Calls(c, actions) == Calls(c, before);
      } else {
        assert calls == [calls[0]];
        assert Calls(c, actions)[..|Calls(c, before)|] == Calls(c, before);
      }
    } else {
      assert Booked(c, START, Ledger(Gate(0, UNSET), 0, 0, 0, UNSET));
    }
  }

  lemma CallCount(c: Setup, m: Moment, a: Action)
    ensures |CallOf(c, m, a)| <= 1
  {
  }

  lemma FewerSent(interval: int, sent: nat, paid: int, rest: int)
    requires interval > 0 && sent <= paid
    ensures interval * sent + rest <= interval * paid + rest
  {
    MultipleGrows(interval, paid - sent);
    assert interval * paid == interval * sent + interval * (paid - sent);
  }

  /**
   * A whole run of ping with a fixed positive interval, whatever the kernel and the network do, as
   * long as the clock does not go back: the probes sent stay within preload plus one for every
   * interval charged, the charge follows real time to within 1 ms per admission, and no more
   * probes go out than were asked for.
   */
  lemma PacedRun(c: Setup, actions: seq<Action>)
    requires c.Valid() && c.interval > 0 && Possible(actions) && Monotone(Calls(c, actions))
    ensures var m := Live(c, actions);
            var l := TokenBucket.Run(c.interval, c.preload, Calls(c, actions));
            && m.gate == l.gate && 0 <= m.gate.tokens <= c.interval * c.preload
            && c.interval * m.stats.w.sent + m.gate.tokens <= c.interval * c.preload + l.charged
            && (l.admitted > 0 ==>
                  1_000_000 * l.charged <= m.gate.last.Nanos() - l.first.Nanos() + 999_999 * (l.admitted - 1))
            && (c.npackets > 0 && c.deadline == 0 ==> m.stats.w.sent <= c.npackets)
  {
    hide Live, Calls, TokenBucket.Run, Possible, Monotone;
    LiveBooked(c, actions);
    RateIsLimited(c.interval, c.preload, Calls(c, actions));
    var m, l := Live(c, actions), TokenBucket.Run(c.interval, c.preload, Calls(c, actions));
    FewerSent(c.interval, m.stats.w.sent, l.admitted - l.refunded, m.gate.tokens);
  }

  /** And every reply of such a run is counted once, and no probe is counted as answered twice. */
  lemma CountedRun(c: Setup, actions: seq<Action>)
    ensures var s := Live(c, actions).stats;
            var events := Events(c, actions);
            && s.received + s.repeats + s.badsum == Replies(events)
            && s.w.sent == Sends(events)
            && (AnswersSent(events) && s.w.sent < 0x1_0000 ==> s.received == |s.table| <= s.w.sent)
  {
    LiveStatistics(c, actions);
    Conservation(Events(c, actions));
    if AnswersSent(Events(c, actions)) && Sends(Events(c, actions)) < 0x1_0000 {
      ReceivedAtMostSent(Events(c, actions));
    }
    hide Live, Events, Replies, Sends, AnswersSent;
  }

  /** The clock readings of a run lie before `now`, and the trip times were clamped. */
  predicate Until(c: Setup, actions: seq<Action>, now: Instant) {
    && Monotone(Calls(c, actions)) && now.Valid()
    && (forall call | call in Calls(c, actions) :: call.now.Nanos() <= now.Nanos())
    && (forall t | t in Trips(Events(c, actions)) :: t <= MAX_TRIP)
  }

  /** Every state that a run reaches is one in which the sending loop may start. */
  lemma LiveReady(c: Setup, actions: seq<Action>, now: Instant)
    requires c.Valid() && c.interval > 0 && Possible(actions) && Until(c, actions, now)
    ensures Ready(c, Live(c, actions), now)
  {
    hide Live, Calls, Events, TokenBucket.Run, Possible, Monotone, Statistics.Run, Trips;
    LiveBooked(c, actions);
    AlwaysBalanced(c.interval, c.preload, Calls(c, actions));
    LiveStatistics(c, actions);
    AverageInRange(Events(c, actions));
  }

  /** While the gap stays below 0x8000, in_flight is exact in every state that a run reaches. */
  lemma LiveWindow(c: Setup, actions: seq<Action>)
    requires W.Narrow(WindowEvents(Events(c, actions)))
    ensures var m := Live(c, actions);
            m.InFlight() == m.stats.w.sent - W.RunTop(WindowEvents(Events(c, actions)))
  {
    hide Live, Events, W.Narrow, W.RunTop, W.RunSent;
    LiveStatistics(c, actions);
    WindowOfRun(Events(c, actions));
    var s := Live(c, actions).stats;
    W.WindowRefinesCounters(WindowEvents(Events(c, actions)), s.received, s.errors);
  }

  /** Until everything is sent, no last wait has been set. */
  predicate NoWaitYet(c: Setup, m: Moment) {
    m.waittime != 0 ==> c.AllSent(m.stats.w.sent)
  }

  lemma ActKeepsWait(c: Setup, m: Moment, a: Action)
    requires NoWaitYet(c, m) && (a.Arrival? ==> Incoming(a.event))
    ensures NoWaitYet(c, Act(c, m, a)) && (m.waittime != 0 ==> Act(c, m, a).waittime == m.waittime)
  {
    hide Step, LastWait, Int32;
    match a
    case Arrival(e) => ArrivalSends(m.stats, e);
    case Interrupt =>
    case Tick(now, retries, o) =>
      PingSends(c, m, now, retries, o);
      PingKeepsWait(c, m, now, retries, o);
      hide Ping;
  }

  lemma PingKeepsWait(c: Setup, m: Moment, now: Instant, retries: nat, o: Outcome)
    ensures Ping(c, m, now, retries, o).0.waittime == m.waittime
  {
    hide Admit, Apply, ProbeEvents, Setup.Stuck;
  }

  lemma {:induction false} LiveNoWait(c: Setup, actions: seq<Action>)
    requires Possible(actions)
    ensures NoWaitYet(c, Live(c, actions))
  {
    if |actions| > 0 {
      hide Act, NoWaitYet;
      var before := actions[..|actions| - 1];
      assert forall b | b in before :: b in actions;
      LiveNoWait(c, before);
      ActKeepsWait(c, Live(c, before), actions[|actions| - 1]);
    } else {
      assert NoWaitYet(c, START);
    }
  }

  /**
   * In any run, the tick that sends the last probe while nothing has come back sets the linger
   * time as the last wait and is due no earlier; and once set, the last wait stays.
   */
  lemma LiveLingers(c: Setup, actions: seq<Action>, now: Instant, retries: nat, o: Outcome)
    requires Possible(actions) && c.Valid() && !c.AllSent(Live(c, actions).stats.w.sent)
    ensures var (t, due) := Turn(c, Live(c, actions), now, retries, o);
            c.AllSent(t.stats.w.sent) && Live(c, actions).stats.received == 0 ==>
              t.waittime == c.lingertime && due >= c.lingertime / 1000
  {
    LiveNoWait(c, actions);
    var m := Live(c, actions);
    PingKeepsWait(c, m, now, retries, o);
    PingReceives(c, m, now, retries, o);
    var (n, next) := Ping(c, m, now, retries, o);
    if c.AllSent(n.stats.w.sent) && m.stats.received == 0 {
      Lingers(c, n, next);
    }
    hide Live, Ping, LastWait, Int32;
  }

  lemma PingReceives(c: Setup, m: Moment, now: Instant, retries: nat, o: Outcome)
    ensures Ping(c, m, now, retries, o).0.stats.received == m.stats.received
  {
    hide Admit, Probe;
    match Admit(m.gate, c.interval, c.preload, now, m.InFlight() >= c.preload)
    case Wait(_) =>
    case Go(g, _) => ProbeCounts(c, m.(gate := g), retries, o);
  }

  lemma {:induction false} LiveWaitStays(c: Setup, actions: seq<Action>, n: nat)
    requires Possible(actions) && n <= |actions| && Live(c, actions[..n]).waittime != 0
    ensures Live(c, actions).waittime == Live(c, actions[..n]).waittime
  {
    hide Act;
    if n == |actions| {
      assert actions[..n] == actions;
    } else {
      var before := actions[..|actions| - 1];
      assert before[..n] == actions[..n] && forall b | b in before :: b in actions;
      LiveWaitStays(c, before, n);
      LiveNoWait(c, before);
      ActKeepsWait(c, Live(c, before), actions[|actions| - 1]);
    }
  }

  /** With every send delivered, a run sends exactly what the rate check admits. */
  lemma {:induction false} DeliveredRun(c: Setup, actions: seq<Action>)
    requires Possible(actions) && forall a | a in actions && a.Tick? :: a.outcome.Delivered?
    ensures var l := TokenBucket.Run(c.interval, c.preload, Calls(c, actions));
            Live(c, actions).stats.w.sent == l.admitted && l.refunded == 0 && Live(c, actions).gate == l.gate
  {
    if |actions| > 0 {
      hide Act, Account, CallOf;
      var before, a := actions[..|actions| - 1], actions[|actions| - 1];
      assert forall b | b in before :: b in actions;
      assert a in actions;
      DeliveredRun(c, before);
      var m, l := Live(c, before), TokenBucket.Run(c.interval, c.preload, Calls(c, before));
      DeliveredAct(c, m, a, l);
      var calls := CallOf(c, m, a);
      CallCount(c, m, a);
      if calls == [] {
        assert Calls(c, actions) == Calls(c, before);
      } else {
        assert calls == [calls[0]];
        assert Calls(c, actions)[..|Calls(c, before)|] == Calls(c, before);
      }
    }
  }

  lemma DeliveredAct(c: Setup, m: Moment, a: Action, l: Ledger)
    requires m.stats.w.sent == l.admitted && l.refunded == 0 && m.gate == l.gate
    requires (a.Arrival? ==> Incoming(a.event)) && (a.Tick? ==> a.outcome.Delivered?)
    ensures var calls := CallOf(c, m, a);
            var k := if calls == [] then l else Account(l, c.interval, c.preload, calls[0]);
            var n := Act(c, m, a);
            n.stats.w.sent == k.admitted && k.refunded == 0 && n.gate == k.gate
  {
    hide Step, Admit, Apply, ProbeEvents;
    match a
    case Arrival(e) => ArrivalSends(m.stats, e);
    case Interrupt =>
    case Tick(now, retries, o) => SentOnce(m.stats, retries, o, c.Stuck(m.oomCount));
  }

  /**
   * The lower bound beside PacedRun: with every send delivered, a run in which a call is now refused
   * has sent more than preload - 1 and one per interval of real time, up to rounding and to the
   * time that fell on a full bucket.
   */
  lemma ServedRun(c: Setup, actions: seq<Action>, call: Call)
    requires c.Valid() && c.interval > 0 && Possible(actions) && Monotone(Calls(c, actions) + [call])
    requires forall a | a in actions && a.Tick? :: a.outcome.Delivered?
    requires Admit(Live(c, actions).gate, c.interval, c.preload, call.now, call.busy).Wait?
    ensures var l := TokenBucket.Run(c.interval, c.preload, Calls(c, actions));
            var lost := Forfeited(c.interval, c.preload, Calls(c, actions));
            1_000_000 * (c.interval * Live(c, actions).stats.w.sent + lost)
            > 1_000_000 * (c.interval * (c.preload - 1)) + call.now.Nanos() - l.first.Nanos() - 999_999 * l.admitted
  {
    hide Live, Calls, TokenBucket.Run, Forfeited, Admit, Monotone, Possible, ElapsedMs;
    DeliveredRun(c, actions);
    RateIsServed(c.interval, c.preload, Calls(c, actions), call);
  }
}
