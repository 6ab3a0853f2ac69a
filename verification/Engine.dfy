// The running state of ping (struct ping_rts) and the procedures of ping_common.c and ping.h that
// update it in place. Each is tied to the state machine of Statistics and to the token bucket.
module Engine {
  import opened Words
  import opened Statistics
  import opened TokenBucket
  import opened Scheduler
  import W = Window
  import Received

  class PingRts {
    // counters and window
    var ntransmitted: nat
    var nreceived: int
    var nrepeats: int
    var nchecksum: int
    var nerrors: int
    var acked: uint16
    var pipesize: int
    const rcvd: Received.RcvdTable

    // timing
    var tmin: int
    var tmax: int
    var rtt: int
    var rttAddend: int
    var latency: bool

    // scheduling
    const interval: int
    const preload: int
    const npackets: int
    const deadline: int
    const lingertime: uint32
    var exiting: bool
    var curTime: Instant
    var tokens: int      // static in pinger
    var oomCount: int    // static in pinger
    var waittime: int    // static in __schedule_exit

    ghost predicate Valid()
      reads this
    {
      rcvd.Valid() && Accepted(interval, preload) && npackets >= 0 && tmax >= 0 && waittime >= 0
    }

    ghost function View(): Stats
      requires rcvd.Valid()
      reads this, rcvd.bitmap
    {
      Stats(W.Window(ntransmitted, acked, pipesize), nreceived, nrepeats, nchecksum, nerrors,
            tmin, tmax, rtt, rcvd.Members())
    }

    constructor (interval: int, preload: int, npackets: nat, deadline: int, lingertime: uint32)
      requires Accepted(interval, preload)
      ensures Valid() && State() == START && fresh(rcvd) && fresh(rcvd.bitmap)
      ensures Parameters() == Setup(interval, preload, npackets, deadline, lingertime)
    {
      this.interval, this.preload, this.npackets, this.deadline := interval, preload, npackets, deadline;
      this.lingertime := lingertime;
      ntransmitted, nreceived, nrepeats, nchecksum, nerrors := 0, 0, 0, 0, 0;
      acked, pipesize := 0, -1;
      tmin, tmax, rtt, rttAddend, latency := LONG_MAX, 0, 0, 0, false;
      exiting, curTime, tokens, oomCount, waittime := false, UNSET, 0, 0, 0;
      rcvd := new Received.RcvdTable();
    }

    // ---------- ping.h ----------

    /** in_flight. */
    function InFlight(): int
      reads this
    {
      W.InFlight(W.Window(ntransmitted, acked, pipesize), nreceived, nerrors)
    }

    /** acknowledge. */
    method Acknowledge(seqno: uint16)
      requires Valid()
      modifies `acked, `pipesize
      ensures Valid() && View() == Step(old(View()), Unreachable(seqno))
    {
      var diff := U16(U16(ntransmitted) - seqno);
      if diff <= 0x7FFF {
        if diff + 1 > pipesize {
          pipesize := diff + 1;
        }
        if W.Int16(seqno - acked) > 0 || U16(ntransmitted) - acked > 0x7FFF {
          acked := seqno;
        }
      }
    }

    /** advance_ntransmitted. */
    method AdvanceNtransmitted()
      requires Valid()
      modifies `ntransmitted, `acked
      ensures Valid() && View() == Step(old(View()), Sent)
    {
      ntransmitted := ntransmitted + 1;
      if U16(ntransmitted) - acked > 0x7FFF {
        acked := U16(U16(ntransmitted) + 1);
      }
    }

    // ---------- gather_statistics ----------

    /** The extremes and the moving average. */
    method TakeSample(triptime: int)
      requires Valid() && triptime >= 0
      modifies `tmin, `tmax, `rtt
      ensures Valid() && View() == Time(old(View()), triptime)
    {
      if triptime < tmin { tmin := triptime; }
      if triptime > tmax { tmax := triptime; }
      if rtt == 0 { rtt := triptime * 8; } else { rtt := rtt + (triptime - rtt / 8); }
    }

    /** The reply was counted on entry: take that back if it is corrupted or repeated. */
    method CountReply(seqno: uint16, csfailed: bool)
      requires Valid()
      modifies `nreceived, `nrepeats, `nchecksum, rcvd.bitmap
      ensures View() == Classify(old(View().(received := nreceived - 1)), seqno, csfailed)
    {
      if csfailed {
        nchecksum := nchecksum + 1;
        nreceived := nreceived - 1;
      } else {
        var seen := rcvd.Test(seqno);
        if seen {
          nrepeats := nrepeats + 1;
          nreceived := nreceived - 1;
        } else {
          rcvd.Set(seqno);
        }
      }
    }

    /** One reply that is ours; a trip time is taken when the reply is long enough to carry a stamp. */
    method GatherStatistics(seqno: uint16, csfailed: bool, timed: bool, tv: TimeVal, stamp: TimeVal, again: TimeVal)
      returns (ghost trip: Option<nat>)
      requires Valid()
      modifies `nreceived, `nrepeats, `nchecksum, `acked, `pipesize, `tmin, `tmax, `rtt, `latency, rcvd.bitmap
      ensures Valid() && View() == Step(old(View()), Reply(seqno, csfailed, trip))
      ensures trip.Some? <==> timed
      ensures timed ==> trip.value == Trip(Reading(tv, stamp, again, old(latency)), stamp) <= MAX_TRIP
      ensures latency == (old(latency) || (timed && Sub(tv, stamp).sec < 0))
    {
      hide Classify, W.Acknowledge, Smooth, Trip, Sub;
      trip := None;
      nreceived := nreceived + 1;
      if !csfailed {
        Acknowledge(seqno);
      }
      if timed {
        var triptime;
        TripInRange(Reading(tv, stamp, again, latency), stamp);
        triptime, latency := TripTime(tv, stamp, again, latency);
        trip := Some(triptime);
        if !csfailed {
          TakeSample(triptime);
        }
      }
      CountReply(seqno, csfailed);
    }

    // ---------- pinger ----------

    ghost function Parameters(): Setup
    {
      Setup(interval, preload, npackets, deadline, lingertime)
    }

    ghost function State(): Moment
      requires rcvd.Valid()
      reads this, rcvd.bitmap
    {
      Moment(View(), Gate(tokens, curTime), oomCount, rttAddend, waittime, exiting)
    }

    /** send_probe up to the system call: the bit of the next number is cleared on each attempt. */
    method SendProbes(n: nat)
      requires Valid()
      modifies rcvd.bitmap
      ensures View() == Apply(old(View()), Attempts(n))
    {
      hide Apply, Step;
      NoEvents(old(View()));
      assert Attempts(0) == [];
      for i := 0 to n
        invariant View() == Apply(old(View()), Attempts(i))
      {
        assert Attempts(i + 1) == Attempts(i) + [Attempt];
        ApplyOne(old(View()), Attempts(i), Attempt);
        AttemptAgain(View());
        rcvd.Clear(U16(ntransmitted + 1));
      }
    }

    /** The rate check: 0 when a probe may go out now, else the time to wait. */
    method PassGate(now: Instant) returns (go: bool, wait: int)
      requires Valid()
      modifies `curTime, `tokens
      ensures match Admit(old(Gate(tokens, curTime)), interval, preload, now, old(InFlight()) >= preload)
              case Wait(ms) => !go && wait == ms && Gate(tokens, curTime) == old(Gate(tokens, curTime))
              case Go(g, _) => go && Gate(tokens, curTime) == g
    {
      if curTime == UNSET {
        curTime := now;
        tokens := interval * (preload - 1);
      } else {
        var ntokens := (now.sec - curTime.sec) * 1000 + DivC(now.nsec - curTime.nsec, 1_000_000);
        if interval == 0 {
          if ntokens < MIN_INTERVAL_MS && InFlight() >= preload {
            return false, MIN_INTERVAL_MS - ntokens;
          }
        }
        ntokens := ntokens + tokens;
        var tmp := interval * preload;
        if tmp < ntokens {
          ntokens := tmp;
        }
        if ntokens < interval {
          return false, interval - ntokens;
        }
        curTime := now;
        tokens := ntokens - interval;
      }
      return true, 0;
    }

    /** What follows the last send of a call. */
    method Conclude(o: Outcome) returns (next: int)
      requires Valid()
      modifies `ntransmitted, `nerrors, `acked, `pipesize, `rttAddend, `tokens, `oomCount
      ensures View() == Apply(old(View()), Aftermath(o, old(Parameters().Stuck(oomCount))))
      ensures tokens == Settle(old(tokens), interval, o)
      ensures oomCount == if o.Delivered? then 0 else if o.NoBuffers? then old(oomCount) + 1 else old(oomCount)
      ensures rttAddend == old(rttAddend) + if o.NoBuffers? then Slowdown(rtt) else 0
      ensures next == Pause(interval, tokens, o, old(Parameters().Stuck(oomCount)))
    {
      hide W.Acknowledge, W.Advance, Apply, Step, Accepted;
      ghost var s := View();
      FewSteps(s, Sent, Sent, Sent);
      FewSteps(s, Failed, Sent, Sent);
      FailedOnly(s);
      match o {
        case Delivered =>
          oomCount := 0;
          AdvanceNtransmitted();
          return interval - tokens;
        case NoBuffers =>
          tokens := 0;
          rttAddend := rttAddend + (if rtt < 8 * 50000 then rtt / 8 else 50000);
          var pause := Schint(DivC(interval, 2));
          if pause > 500 {
            pause := 500;
          }
          oomCount := oomCount + 1;
          if oomCount * pause % 0x1_0000_0000 < lingertime / 1000 {
            return pause;
          }
        case Again =>
          tokens := tokens + interval;
          return MIN_INTERVAL_MS;
        case TooBig =>
          nerrors := nerrors + 1;
        case Icmp(seqno) =>
          FewSteps(s, Unreachable(seqno), Failed, Sent);
          FailedOnly(Step(s, Unreachable(seqno)));
          Acknowledge(seqno);
          nerrors := nerrors + 1;
        case Local(counted) =>
          if counted {
            nerrors := nerrors + 1;
          }
      }
      AdvanceNtransmitted();
      tokens := 0;
      next := Schint(interval);
    }

    /** pinger: the clock reading, the number of resends and the outcome are the environment's. */
    method Pinger(now: Instant, retries: nat, o: Outcome) returns (next: int)
      requires Valid()
      modifies `ntransmitted, `nerrors, `acked, `pipesize, `rttAddend, `curTime, `tokens, `oomCount, rcvd.bitmap
      ensures Valid()
      ensures (State(), next) == Ping(Parameters(), old(State()), now, retries, o)
    {
      hide Admit, Probe;
      if exiting || (npackets != 0 && ntransmitted >= npackets && deadline == 0) {
        return 1000;
      }
      var go, wait := PassGate(now);
      if !go {
        return wait;
      }
      next := SendAndConclude(retries, o);
    }

    /** The rest of an admitted call. */
    method SendAndConclude(retries: nat, o: Outcome) returns (next: int)
      requires Valid()
      modifies `ntransmitted, `nerrors, `acked, `pipesize, `rttAddend, `tokens, `oomCount, rcvd.bitmap
      ensures Valid()
      ensures (State(), next) == Probe(Parameters(), old(State()), retries, o)
    {
      hide Apply, Settle, Pause, Aftermath, Attempts, Slowdown, Setup.Stuck;
      SendProbes(retries + 1);
      ApplyMore(old(View()), Attempts(retries + 1), Aftermath(o, Parameters().Stuck(oomCount)));
      next := Conclude(o);
    }

    // ---------- main_loop ----------

    /** The sending loop of main_loop while the clock stands at `now`: it ends within the preload. */
    method SendDue(now: Instant, retries: nat -> nat, outcome: nat -> Outcome) returns (ghost turns: nat, next: int)
      requires Valid() && Ready(Parameters(), State(), now)
      modifies `ntransmitted, `nerrors, `acked, `pipesize, `rttAddend, `curTime, `tokens, `oomCount, `waittime,
               rcvd.bitmap
      ensures Valid()
      ensures Ended(Burst(Parameters(), old(State()), now, retries, outcome), turns, State(), next)
    {
      ghost var burst := Burst(Parameters(), State(), now, retries, outcome);
      burst.Begin();
      hide Turn, Running, Ended, Ready, State, View, Accepted;
      turns := 0;
      var turn := 0;
      while true
        invariant Valid() && turn == turns
        invariant Running(burst, turns, State())
        decreases preload - turns
      {
        burst.Continue(turns, State());
        next := TakeTurn(now, retries(turn), outcome(turn));
        turns, turn := turns + 1, turn + 1;
        if next > 0 {
          return;
        }
      }
    }

    /** The body of that loop. */
    method TakeTurn(now: Instant, retries: nat, o: Outcome) returns (next: int)
      requires Valid()
      modifies `ntransmitted, `nerrors, `acked, `pipesize, `rttAddend, `curTime, `tokens, `oomCount, `waittime,
               rcvd.bitmap
      ensures Valid() && (State(), next) == Turn(Parameters(), old(State()), now, retries, o)
    {
      hide Ping;
      next := Pinger(now, retries, o);
      next := ScheduleExit(next);
    }

    // ---------- leaving ----------

    /** schedule_exit with __schedule_exit. */
    method ScheduleExit(next: int) returns (next': int)
      requires Valid()
      modifies `waittime
      ensures Valid() && (State(), next') == Exit(Parameters(), old(State()), next)
    {
      next' := next;
      if npackets != 0 && ntransmitted >= npackets && deadline == 0 {
        if waittime != 0 {
          return;
        }
        if nreceived != 0 {
          waittime := 2 * tmax;
          if waittime < 1000 * interval {
            var product := Int32(1000 * interval);
            waittime := if product < 0 then product + 0x1_0000_0000_0000_0000 else product;
          }
        } else {
          waittime := lingertime;
        }
        if next' < 0 || next' < waittime / 1000 {
          next' := Int32(waittime / 1000);
        }
      }
    }
  }
}
