// The token bucket that decides in `pinger` when a probe may go out (ping_common.c).
module TokenBucket {
  import opened Words

  const INT_MAX := 0x7FFF_FFFF
  const MIN_INTERVAL_MS := 10

  /** A reading of the monotonic clock; the reading zero means "not started" to the program. */
  datatype Instant = Instant(sec: nat, nsec: nat) {
    predicate Valid() {
      nsec < 1_000_000_000 && Nanos() > 0
    }

    function Nanos(): nat {
      1_000_000_000 * sec + nsec
    }
  }

  const UNSET := Instant(0, 0)

  /** Elapsed milliseconds as the program computes them: seconds and nanoseconds apart. */
  function ElapsedMs(start: Instant, end: Instant): int {
    (end.sec - start.sec) * 1000 + DivC(end.nsec - start.nsec, 1_000_000)
  }

  datatype Gate = Gate(tokens: int, last: Instant)

  datatype Verdict = Wait(ms: int) | Go(gate: Gate, charged: int)

  /** May a probe go out now? `busy` is in_flight() >= preload, which matters for interval 0 only. */
  function Admit(g: Gate, interval: int, preload: int, now: Instant, busy: bool): Verdict {
    if g.last == UNSET then Go(Gate(interval * (preload - 1), now), 0)
    else
      var elapsed := ElapsedMs(g.last, now);
      if interval == 0 && elapsed < MIN_INTERVAL_MS && busy then Wait(MIN_INTERVAL_MS - elapsed)
      else
        var cap := interval * preload;
        var ntokens := if cap < elapsed + g.tokens then cap else elapsed + g.tokens;
        if ntokens < interval then Wait(interval - ntokens)
        else Go(Gate(ntokens - interval, now), elapsed)
  }

  /** What the kernel made of the probe, and what was on the error queue after other failures. */
  datatype Outcome =
    | Delivered
    | NoBuffers
    | Again
    | TooBig
    | Icmp(seqno: uint16)
    | Local(counted: bool)

  /** A full socket buffer refunds the token; every other failure empties the bucket. */
  function Settle(tokens: int, interval: int, o: Outcome): int {
    match o
    case Delivered => tokens
    case Again => tokens + interval
    case _ => 0
  }

  // ---------- Whole runs ----------

  datatype Call = Call(now: Instant, busy: bool, outcome: Outcome)

  datatype Ledger = Ledger(gate: Gate, admitted: nat, refunded: nat, charged: int, first: Instant)

  function Account(l: Ledger, interval: int, preload: int, c: Call): Ledger {
    match Admit(l.gate, interval, preload, c.now, c.busy)
    case Wait(_) => l
    case Go(g, charged) =>
      Ledger(
        g.(tokens := Settle(g.tokens, interval, c.outcome)),
        l.admitted + 1,
        l.refunded + (if c.outcome.Again? then 1 else 0),
        l.charged + charged,
        if l.admitted == 0 then c.now else l.first)
  }

  function Run(interval: int, preload: int, calls: seq<Call>): Ledger {
    if |calls| == 0 then Ledger(Gate(0, UNSET), 0, 0, 0, UNSET)
    else Account(Run(interval, preload, calls[..|calls| - 1]), interval, preload, calls[|calls| - 1])
  }

  predicate Monotone(calls: seq<Call>) {
    && (forall c | c in calls :: c.now.Valid())
    && forall i, j | 0 <= i < j < |calls| :: calls[i].now.Nanos() <= calls[j].now.Nanos()
  }

  /** The parameter check of setup, which exits when it fails. */
  predicate Accepted(interval: int, preload: int) {
    1 <= preload && 0 <= interval < INT_MAX / preload
  }

  lemma NoOverflow(interval: int, preload: int)
    requires Accepted(interval, preload)
    ensures 0 <= interval * (preload - 1) <= interval * preload <= INT_MAX
  {
    var q := INT_MAX / preload;
    assert preload * q <= INT_MAX;
    assert interval * preload <= q * preload by {
      assert (q - interval) * preload >= 0;
    }
    assert interval * (preload - 1) == interval * preload - interval;
    assert interval * (preload - 1) >= 0;
  }

  /** The computed elapsed time is never negative and less than 1 ms too long. */
  lemma ElapsedError(start: Instant, end: Instant)
    requires start.Valid() && end.Valid() && start.Nanos() <= end.Nanos()
    ensures 0 <= ElapsedMs(start, end)
    ensures 1_000_000 * ElapsedMs(start, end) <= end.Nanos() - start.Nanos() + 999_999
  {
    var d := end.nsec - start.nsec;
    assert start.sec <= end.sec;
    assert -1000 < DivC(d, 1_000_000) && (d >= 0 ==> DivC(d, 1_000_000) >= 0);
    assert 1_000_000 * DivC(d, 1_000_000) <= d + 999_999;
  }

  /** It is too long exactly when the nanoseconds went back by other than whole milliseconds. */
  lemma ElapsedTooLong(start: Instant, end: Instant)
    requires start.Valid() && end.Valid()
    ensures 1_000_000 * ElapsedMs(start, end) > end.Nanos() - start.Nanos()
       <==> end.nsec < start.nsec && (start.nsec - end.nsec) % 1_000_000 != 0
  {
    var d := end.nsec - start.nsec;
    assert 1_000_000 * ElapsedMs(start, end) - (end.Nanos() - start.Nanos()) == 1_000_000 * DivC(d, 1_000_000) - d;
  }

  /** The bound of ElapsedError is reached. */
  lemma AlmostOneMsTooLong()
    ensures var start, end := Instant(1, 999_999), Instant(2, 0);
            && start.Valid() && end.Valid() && start.Nanos() <= end.Nanos()
            && 1_000_000 * ElapsedMs(start, end) == end.Nanos() - start.Nanos() + 999_999
  {
  }

  /** The state of the books after any run, for a fixed interval. */
  predicate Balanced(l: Ledger, interval: int, preload: int) {
    if l.admitted == 0 then l.gate == Gate(0, UNSET) && l.refunded == 0 && l.charged == 0
    else
      && l.first.Valid() && l.gate.last.Valid()
      && 0 <= l.gate.tokens <= interval * preload
      && interval * (l.admitted - l.refunded) + l.gate.tokens <= interval * preload + l.charged
      && 0 <= l.charged
      && 1_000_000 * l.charged <= l.gate.last.Nanos() - l.first.Nanos() + 999_999 * (l.admitted - 1)
  }

  lemma AdmitBounds(g: Gate, interval: int, preload: int, now: Instant, busy: bool)
    requires Accepted(interval, preload) && now.Valid()
    requires g.last == UNSET || (g.last.Valid() && g.last.Nanos() <= now.Nanos() && 0 <= g.tokens)
    ensures match Admit(g, interval, preload, now, busy)
            case Wait(ms) => g.last != UNSET && 0 < ms
            case Go(h, charged) =>
              h.last == now && 0 <= h.tokens <= interval * preload - interval && 0 <= charged
              && (g.last != UNSET ==> charged == ElapsedMs(g.last, now) && h.tokens <= g.tokens + charged - interval)
              && (g.last == UNSET ==> charged == 0 && h.tokens == interval * preload - interval)
  {
    NoOverflow(interval, preload);
    assert interval * (preload - 1) == interval * preload - interval;
    if g.last != UNSET {
      ElapsedError(g.last, now);
    }
    hide ElapsedMs;
  }

  lemma AccountBalanced(l: Ledger, interval: int, preload: int, c: Call)
    requires Accepted(interval, preload) && c.now.Valid() && Balanced(l, interval, preload)
    requires l.admitted > 0 ==> l.gate.last.Nanos() <= c.now.Nanos()
    ensures Balanced(Account(l, interval, preload, c), interval, preload)
  {
    AdmitBounds(l.gate, interval, preload, c.now, c.busy);
    NoOverflow(interval, preload);
    hide Admit;
    var m := Account(l, interval, preload, c);
    if m.admitted > l.admitted {
      assert m.admitted - m.refunded == l.admitted - l.refunded + if c.outcome.Again? then 0 else 1;
      assert interval * (l.admitted - l.refunded + 1) == interval * (l.admitted - l.refunded) + interval;
      if l.admitted > 0 {
        ElapsedError(l.gate.last, c.now);
      }
    }
    hide ElapsedMs;
  }

  lemma {:induction false} AlwaysBalanced(interval: int, preload: int, calls: seq<Call>)
    requires Accepted(interval, preload) && Monotone(calls)
    ensures var l := Run(interval, preload, calls);
            Balanced(l, interval, preload) && (l.admitted > 0 ==> exists c | c in calls :: l.gate.last == c.now)
  {
    if |calls| > 0 {
      var before, c := calls[..|calls| - 1], calls[|calls| - 1];
      AlwaysBalanced(interval, preload, before);
      var l := Run(interval, preload, before);
      if l.admitted > 0 {
        var b :| b in before && l.gate.last == b.now;
        assert b in calls;
      }
      AccountBalanced(l, interval, preload, c);
      AdmitBounds(l.gate, interval, preload, c.now, c.busy);
      assert c in calls;
      hide Balanced, Admit;
    }
  }

  /**
   * Over any run with a monotone clock and a fixed positive interval, the probes let through and
   * not refunded stay within preload plus one per interval of real time, up to the rounding of
   * less than 1 ms per probe; and the tokens kept between calls stay in the range of an int.
   */
  lemma RateIsLimited(interval: int, preload: int, calls: seq<Call>)
    requires Accepted(interval, preload) && 0 < interval && Monotone(calls)
    ensures var l := Run(interval, preload, calls);
            0 <= l.gate.tokens <= interval * preload <= INT_MAX
            && interval * (l.admitted - l.refunded) + l.gate.tokens <= interval * preload + l.charged
            && (l.admitted > 0 ==>
                  1_000_000 * l.charged <= l.gate.last.Nanos() - l.first.Nanos() + 999_999 * (l.admitted - 1))
  {
    AlwaysBalanced(interval, preload, calls);
    NoOverflow(interval, preload);
  }

  // ---------- Nothing is withheld ----------

  /**
   * With a positive interval the time a refusal asks for is exactly the time needed: a later call
   * is admitted if and only if that many more milliseconds have elapsed, and the tokens it finds
   * then are those kept before with the elapsed time added, as far as the bucket holds them.
   */
  lemma WaitIsExact(g: Gate, interval: int, preload: int, now: Instant, later: Instant, busy: bool, busyLater: bool)
    requires Accepted(interval, preload) && 0 < interval && g.last != UNSET
    requires Admit(g, interval, preload, now, busy).Wait?
    ensures var ms := Admit(g, interval, preload, now, busy).ms;
            Admit(g, interval, preload, later, busyLater).Go? <==>
            ElapsedMs(g.last, later) >= ElapsedMs(g.last, now) + ms
  {
    hide ElapsedMs;
    AtLeastOne(interval, preload);
  }

  lemma AtLeastOne(interval: int, preload: int)
    requires Accepted(interval, preload)
    ensures interval * preload >= interval
  {
    NoOverflow(interval, preload);
    assert interval * (preload - 1) == interval * preload - interval;
  }

  /** Where there is no limit and no flood of unanswered probes, every call is admitted. */
  lemma FloodIsFree(g: Gate, preload: int, now: Instant)
    requires g.last == UNSET || (g.last.Valid() && now.Valid() && g.last.Nanos() <= now.Nanos() && 0 <= g.tokens)
    ensures Admit(g, 0, preload, now, false).Go?
  {
    if g.last != UNSET {
      ElapsedError(g.last, now);
    }
    hide ElapsedMs;
  }

  /** The time that a call adds to a full bucket, and the tokens that a failed send throws away. */
  function Forfeit(l: Ledger, interval: int, preload: int, c: Call): int {
    match Admit(l.gate, interval, preload, c.now, c.busy)
    case Wait(_) => 0
    case Go(g, charged) =>
      var over := if l.admitted == 0 then 0 else l.gate.tokens + charged - interval * preload;
      (if over > 0 then over else 0) + (if c.outcome.Delivered? || c.outcome.Again? then 0 else g.tokens)
  }

  function Forfeited(interval: int, preload: int, calls: seq<Call>): int {
    if |calls| == 0 then 0
    else
      var before, c := calls[..|calls| - 1], calls[|calls| - 1];
      Forfeited(interval, preload, before) + Forfeit(Run(interval, preload, before), interval, preload, c)
  }

  /** Every millisecond charged and the preload are accounted for. */
  predicate Exact(l: Ledger, interval: int, preload: int, lost: int) {
    && 0 <= lost && (l.admitted == 0 ==> lost == 0)
    && (l.admitted > 0 ==>
          interval * (l.admitted - l.refunded) + l.gate.tokens + lost == interval * preload + l.charged)
  }

  lemma AccountExact(l: Ledger, interval: int, preload: int, c: Call, lost: int)
    requires Accepted(interval, preload) && c.now.Valid() && Balanced(l, interval, preload)
    requires l.admitted > 0 ==> l.gate.last.Nanos() <= c.now.Nanos()
    requires Exact(l, interval, preload, lost)
    ensures Exact(Account(l, interval, preload, c), interval, preload, lost + Forfeit(l, interval, preload, c))
  {
    AdmitBounds(l.gate, interval, preload, c.now, c.busy);
    hide ElapsedMs;
    NoOverflow(interval, preload);
    var m := Account(l, interval, preload, c);
    var n := l.admitted - l.refunded;
    assert interval * (preload - 1) == interval * preload - interval;
    assert interval * (n + 1) == interval * n + interval;
    if m.admitted > l.admitted {
      assert m.admitted - m.refunded == if c.outcome.Again? then n else n + 1;
    }
  }

  /** What a run leaves for its next call. */
  lemma LastBefore(interval: int, preload: int, calls: seq<Call>, c: Call)
    requires Accepted(interval, preload) && Monotone(calls + [c])
    ensures var l := Run(interval, preload, calls);
            && Monotone(calls) && c.now.Valid() && Balanced(l, interval, preload)
            && (l.admitted > 0 ==> l.gate.last.Nanos() <= c.now.Nanos())
  {
    hide Run, Balanced, Accepted;
    var all := calls + [c];
    assert c in all && all[..|calls|] == calls;
    assert forall b | b in calls :: b in all;
    assert forall i | 0 <= i < |calls| :: all[i] == calls[i] && all[i].now.Nanos() <= all[|calls|].now.Nanos();
    AlwaysBalanced(interval, preload, calls);
  }

  /**
   * The books are exact: every millisecond charged and the preload went into a probe, is still in
   * the bucket, or was forfeited to a full bucket or a failed send.
   */
  lemma {:induction false} BooksAreExact(interval: int, preload: int, calls: seq<Call>)
    requires Accepted(interval, preload) && Monotone(calls)
    ensures Exact(Run(interval, preload, calls), interval, preload, Forfeited(interval, preload, calls))
  {
    hide Exact, Account, Forfeit, Balanced, Monotone, Accepted;
    EmptyBooks(interval, preload);
    if |calls| > 0 {
      var before, c := calls[..|calls| - 1], calls[|calls| - 1];
      assert before + [c] == calls;
      LastBefore(interval, preload, before, c);
      BooksAreExact(interval, preload, before);
      AccountExact(Run(interval, preload, before), interval, preload, c, Forfeited(interval, preload, before));
    }
  }

  lemma EmptyBooks(interval: int, preload: int)
    ensures Exact(Run(interval, preload, []), interval, preload, Forfeited(interval, preload, []))
  {
  }

  /** The elapsed time is less than 1 ms too short. */
  lemma ElapsedShort(start: Instant, end: Instant)
    ensures 1_000_000 * ElapsedMs(start, end) >= end.Nanos() - start.Nanos() - 999_999
  {
    var d := end.nsec - start.nsec;
    assert 1_000_000 * DivC(d, 1_000_000) >= d - 999_999;
  }

  /** The time charged falls behind real time by less than 1 ms per admission. */
  lemma {:induction false} ChargedEnough(interval: int, preload: int, calls: seq<Call>)
    requires Accepted(interval, preload) && Monotone(calls)
    ensures var l := Run(interval, preload, calls);
            l.admitted > 0 ==>
              1_000_000 * l.charged >= l.gate.last.Nanos() - l.first.Nanos() - 999_999 * (l.admitted - 1)
  {
    if |calls| > 0 {
      var before, c := calls[..|calls| - 1], calls[|calls| - 1];
      ChargedEnough(interval, preload, before);
      AlwaysBalanced(interval, preload, before);
      var l := Run(interval, preload, before);
      assert c in calls;
      AdmitBounds(l.gate, interval, preload, c.now, c.busy);
      ElapsedShort(l.gate.last, c.now);
      hide Admit, ElapsedMs;
    }
  }

  /**
   * The lower bound beside RateIsLimited. Whenever a call is refused, the probes let through and not
   * refunded are more than preload - 1 and one per interval of real time, up to the rounding of
   * less than 1 ms per probe and to what was forfeited.
   */
  lemma RateIsServed(interval: int, preload: int, calls: seq<Call>, c: Call)
    requires Accepted(interval, preload) && 0 < interval && Monotone(calls + [c])
    requires Admit(Run(interval, preload, calls).gate, interval, preload, c.now, c.busy).Wait?
    ensures var l := Run(interval, preload, calls);
            var lost := Forfeited(interval, preload, calls);
            && l.admitted > 0
            && interval * (l.admitted - l.refunded) + lost
               > interval * (preload - 1) + l.charged + ElapsedMs(l.gate.last, c.now)
            && 1_000_000 * (interval * (l.admitted - l.refunded) + lost)
               > 1_000_000 * (interval * (preload - 1)) + c.now.Nanos() - l.first.Nanos() - 999_999 * l.admitted
  {
    hide Run, Monotone, Forfeited, ElapsedMs, Admit, Accepted;
    LastBefore(interval, preload, calls, c);
    BooksAreExact(interval, preload, calls);
    ChargedEnough(interval, preload, calls);
    var l := Run(interval, preload, calls);
    RefusedBelow(l.gate, interval, preload, c.now, c.busy);
    ElapsedShort(l.gate.last, c.now);
    assert interval * (preload - 1) == interval * preload - interval;
  }

  /** A refusal means that a token is missing. */
  lemma RefusedBelow(g: Gate, interval: int, preload: int, now: Instant, busy: bool)
    requires Accepted(interval, preload) && 0 < interval && Admit(g, interval, preload, now, busy).Wait?
    ensures g.last != UNSET && ElapsedMs(g.last, now) + g.tokens < interval
  {
    AtLeastOne(interval, preload);
    hide ElapsedMs;
  }

  /**
   * Unlimited flood, while enough probes are unanswered: a probe goes out exactly when 10 ms have
   * passed since the last one, or more than 9 ms and the nanoseconds went back.
   */
  lemma FloodIsPaced(g: Gate, preload: int, now: Instant)
    requires g.last.Valid() && now.Valid() && g.last.Nanos() <= now.Nanos() && 0 <= g.tokens
    ensures var gap := now.Nanos() - g.last.Nanos();
            Admit(g, 0, preload, now, true).Go? <==>
            gap >= 10_000_000 || (gap > 9_000_000 && now.nsec < g.last.nsec)
  {
    FloodAdmits(g, preload, now);
    GapOfTen(g.last, now);
    hide ElapsedMs, Admit;
  }

  lemma FloodAdmits(g: Gate, preload: int, now: Instant)
    requires g.last != UNSET && 0 <= g.tokens && 0 <= ElapsedMs(g.last, now)
    ensures Admit(g, 0, preload, now, true).Go? <==> ElapsedMs(g.last, now) >= MIN_INTERVAL_MS
  {
    hide ElapsedMs;
  }

  /** When the computed time reaches 10 ms. */
  lemma GapOfTen(start: Instant, end: Instant)
    requires start.Valid() && end.Valid() && start.Nanos() <= end.Nanos()
    ensures var gap := end.Nanos() - start.Nanos();
            && 0 <= ElapsedMs(start, end)
            && (ElapsedMs(start, end) >= 10 <==>
                gap >= 10_000_000 || (gap > 9_000_000 && end.nsec < start.nsec))
  {
    ElapsedError(start, end);
    var d, s := end.nsec - start.nsec, end.sec - start.sec;
    var gap := 1_000_000_000 * s + d;
    assert gap == end.Nanos() - start.Nanos();
    if d >= 0 {
      assert ElapsedMs(start, end) == gap / 1_000_000;
    } else {
      assert ElapsedMs(start, end) == 1000 * s - (-d) / 1_000_000;
    }
  }

  /** A probe admitted after 9 ms and 1 ns. */
  lemma FloodBelowTen(preload: int)
    ensures var g, now := Gate(0, Instant(1, 991_999_999)), Instant(2, 1_000_000);
            && g.last.Valid() && now.Valid() && now.Nanos() - g.last.Nanos() == 9_000_001
            && Admit(g, 0, preload, now, true).Go?
  {
  }
}
