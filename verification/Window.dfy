// The acknowledgement window of ping.h: a 16-bit number `acked` beside the full count of probes
// stands in for the largest sequence number answered so far.
module Window {
  import opened Words

  datatype Window = Window(sent: nat, acked: uint16, pipesize: int)

  const FRESH := Window(0, 0, -1)

  /** The conversion of an int to int16_t. */
  function Int16(x: int): int {
    if U16(x) < 0x8000 then U16(x) else U16(x) - 0x1_0000
  }

  /** in_flight: the 16-bit difference, or the difference of the counters when it is out of range. */
  function InFlight(w: Window, received: int, errors: int): int {
    var diff := U16(U16(w.sent) - w.acked);
    if diff <= 0x7FFF then diff else w.sent - received - errors
  }

  /** acknowledge: note that the last comparison is made on promoted ints and can be negative. */
  function Acknowledge(w: Window, seqno: uint16): (r: Window)
    ensures r.sent == w.sent && w.pipesize <= r.pipesize
  {
    var diff := U16(U16(w.sent) - seqno);
    if diff > 0x7FFF then w
    else
      var pipesize := if diff + 1 > w.pipesize then diff + 1 else w.pipesize;
      var newer := Int16(seqno - w.acked) > 0 || U16(w.sent) - w.acked > 0x7FFF;
      Window(w.sent, if newer then seqno else w.acked, pipesize)
  }

  /** advance_ntransmitted. */
  function Advance(w: Window): (r: Window)
    ensures r.sent == w.sent + 1 && r.pipesize == w.pipesize
  {
    var sent := w.sent + 1;
    w.(sent := sent, acked := if U16(sent) - w.acked > 0x7FFF then U16(U16(sent) + 1) else w.acked)
  }

  // ---------- The unbounded counters the window stands for ----------

  datatype Event = Send | Answer(seqno: uint16)

  /** The newest probe that carried a 16-bit number (0 or less: none did). */
  function Carrier(sent: nat, seqno: uint16): (s: int)
    ensures s <= sent < s + 0x1_0000 && U16(s) == seqno
  {
    sent - U16(sent - seqno)
  }

  /** Largest full-width sequence number answered, counting the last 0x8000 probes as answerable. */
  function Top(sent: nat, top: int, seqno: uint16): int {
    var s := Carrier(sent, seqno);
    if sent - s <= 0x7FFF && s > top then s else top
  }

  function Step(w: Window, e: Event): Window {
    match e
    case Send => Advance(w)
    case Answer(seqno) => Acknowledge(w, seqno)
  }

  function Run(events: seq<Event>): Window {
    if |events| == 0 then FRESH else Step(Run(events[..|events| - 1]), events[|events| - 1])
  }

  function RunSent(events: seq<Event>): nat {
    if |events| == 0 then 0
    else RunSent(events[..|events| - 1]) + if events[|events| - 1].Send? then 1 else 0
  }

  function RunTop(events: seq<Event>): int {
    if |events| == 0 then 0
    else
      var before, e := events[..|events| - 1], events[|events| - 1];
      if e.Send? then RunTop(before) else Top(RunSent(before), RunTop(before), e.seqno)
  }

  /** Fewer than 0x8000 probes have ever been outstanding beyond the newest answered one. */
  predicate Narrow(events: seq<Event>) {
    |events| == 0 || (Narrow(events[..|events| - 1]) && RunSent(events) - RunTop(events) <= 0x7FFF)
  }

  /** The window w represents the pair (w.sent, top). */
  predicate Tracks(w: Window, top: int) {
    top <= w.sent <= top + 0x7FFF && w.acked == U16(top)
  }

  lemma Difference(x: int, y: int)
    ensures U16(U16(x) - U16(y)) == U16(x - y)
  {
    var m := 0x1_0000;
    assert U16(x) - U16(y) == x - y + m * (y / m - x / m);
    DivMod(U16(x) - U16(y), m, (x - y) / m + y / m - x / m, U16(x - y));
  }

  lemma Small(d: int)
    ensures 0 <= d < 0x1_0000 ==> U16(d) == d
    ensures -0x1_0000 <= d < 0 ==> U16(d) == d + 0x1_0000
  {
  }

  lemma Apart(x: int, y: int)
    requires 0 <= x - y <= 0x7FFF
    ensures U16(x) - U16(y) <= 0x7FFF
  {
    Difference(x, y);
    Small(x - y);
    Small(U16(x) - U16(y));
  }

  lemma SignedDifference(x: int, y: int)
    requires -0x8000 <= x - y < 0x8000
    ensures Int16(U16(x) - U16(y)) == x - y
  {
    Difference(x, y);
    Small(x - y);
  }

  lemma AnswerTracked(w: Window, top: int, seqno: uint16)
    requires Tracks(w, top)
    ensures Tracks(Acknowledge(w, seqno), Top(w.sent, top, seqno))
    ensures var d := w.sent - Carrier(w.sent, seqno);
            Acknowledge(w, seqno).pipesize == if d <= 0x7FFF && d + 1 > w.pipesize then d + 1 else w.pipesize
  {
    hide U16, Int16, Carrier;
    CarrierDistance(w.sent, seqno);
    Apart(w.sent, top);
    var s := Carrier(w.sent, seqno);
    if w.sent - s <= 0x7FFF {
      SignedDifference(s, top);
    }
  }

  /** The 16-bit distance to a number is the distance to its newest carrier. */
  lemma CarrierDistance(sent: nat, seqno: uint16)
    ensures U16(U16(sent) - seqno) == sent - Carrier(sent, seqno) && U16(Carrier(sent, seqno)) == seqno
  {
    hide U16, Carrier;
    var s := Carrier(sent, seqno);
    Difference(sent, s);
    Small(sent - s);
  }

  lemma SendTracked(w: Window, top: int)
    requires Tracks(w, top) && w.sent - top < 0x7FFF
    ensures Tracks(Advance(w), top)
  {
    Apart(w.sent + 1, top);
  }

  lemma TrackedInFlight(w: Window, top: int, received: int, errors: int)
    requires Tracks(w, top)
    ensures InFlight(w, received, errors) == w.sent - top
  {
    Difference(w.sent, top);
    Small(w.sent - top);
  }

  /** The send that makes the gap 0x8000 switches in_flight to the difference of the counters. */
  lemma FirstSendPastTheWindow(w: Window, top: int, received: int, errors: int)
    requires Tracks(w, top) && w.sent - top == 0x7FFF
    ensures InFlight(Advance(w), received, errors) == w.sent + 1 - received - errors
  {
    hide U16;
    var n := w.sent + 1;
    Difference(n, top);
    Difference(n, n + 1);
    Small(0x8000);
    Small(-1);
    U16Plus(n);
  }

  lemma U16Plus(n: nat)
    ensures U16(U16(n) + 1) == U16(n + 1)
  {
  }

  /**
   * And the send after that forgets what is outstanding: when `acked` was in the lower half of its
   * range, the window then stands as if every probe up to the newest had been answered; when it
   * was in the upper half, the difference of the counters remains in use.
   */
  lemma SecondSendPastTheWindow(w: Window, top: int, received: int, errors: int)
    requires Tracks(w, top) && w.sent - top == 0x7FFF
    ensures var v := Advance(Advance(w));
            if U16(top) < 0x8000 then Tracks(v, v.sent) && InFlight(v, received, errors) == 0
            else v.acked == U16(top) && InFlight(v, received, errors) == v.sent - received - errors
  {
    var n: int, a: int := w.sent, U16(top);
    SumOf(top, 0x8000);
    SumOf(top, 0x8001);
    SumOf(top, 0);
    assert U16(a) == a;
    if a < 0x8000 {
      assert Advance(w).acked == U16(a + 0x8001);
      TrackedInFlight(Advance(Advance(w)), n + 2, received, errors);
    } else {
      assert U16(n + 1) - a <= 0x7FFF && U16(n + 2) - a <= 0x7FFF;
      Difference(n + 2, top);
      Small(0x8001);
    }
  }

  // ---------- Answers after the window was lost ----------

  /**
   * After the first send past the window: an answer within the last 0x8000 probes is not taken, in
   * the lower half, unless the count stands before a wrap; in the upper half it is, unless it
   * answers the newest probe.
   */
  lemma LateAnswer(w: Window, top: int, s: int)
    requires Tracks(w, top) && w.sent - top == 0x7FFF
    requires var n := w.sent + 1; n - 0x7FFF <= s <= n
    ensures var v := Advance(w);
            var taken := if U16(top) < 0x8000 then U16(v.sent) == 0xFFFF else s < v.sent;
            Acknowledge(v, U16(s)).acked == if taken then U16(s) else v.acked
  {
    hide U16, Int16;
    var n := w.sent + 1;
    FirstAcked(w, top);
    Difference(n, s);
    Small(n - s);
    Apart(n, s);
    Gap(n, s);
    if U16(top) < 0x8000 {
      SignedDifference(s, n + 1);
    } else if s < n {
      SignedDifference(s, top);
    } else {
      SignedHalf(s, top);
    }
  }

  /** Where the first send past the window leaves acked, and the second test of acknowledge. */
  lemma FirstAcked(w: Window, top: int)
    requires Tracks(w, top) && w.sent - top == 0x7FFF
    ensures var v := Advance(w);
            && v.sent == w.sent + 1
            && v.acked == (if U16(top) < 0x8000 then U16(v.sent + 1) else U16(top))
            && (U16(v.sent) - v.acked > 0x7FFF <==> U16(top) < 0x8000 && U16(v.sent) == 0xFFFF)
  {
    SumOf(top, 0x8000);
    SumOf(w.sent + 1, 1);
    U16Plus(w.sent + 1);
  }

  lemma Gap(n: int, s: int)
    requires 0 <= n - s <= 0x7FFF
    ensures U16(U16(n) - U16(s)) == n - s
  {
    Difference(n, s);
    Small(n - s);
  }

  lemma SignedHalf(x: int, y: int)
    requires x - y == 0x8000
    ensures Int16(U16(x) - U16(y)) < 0
  {
    Difference(x, y);
    Small(x - y);
  }

  /** The only state a run reaches in which the second test of acknowledge decides. */
  lemma {:induction false} SecondTest(events: seq<Event>)
    ensures var w := Run(events);
            U16(w.sent) - w.acked > 0x7FFF ==> U16(w.sent) == 0xFFFF && w.acked == 0
  {
    hide Advance, Acknowledge;
    if |events| > 0 {
      var before, e := events[..|events| - 1], events[|events| - 1];
      SecondTest(before);
      match e
      case Send => SecondTestSend(Run(before));
      case Answer(seqno) => SecondTestAnswer(Run(before), seqno);
    }
  }

  lemma SecondTestSend(w: Window)
    ensures var v := Advance(w);
            U16(v.sent) - v.acked > 0x7FFF ==> U16(v.sent) == 0xFFFF && v.acked == 0
  {
    hide U16;
    SumOf(w.sent + 1, 1);
    U16Plus(w.sent + 1);
  }

  lemma SecondTestAnswer(w: Window, seqno: uint16)
    requires U16(w.sent) - w.acked > 0x7FFF ==> U16(w.sent) == 0xFFFF && w.acked == 0
    ensures var v := Acknowledge(w, seqno);
            U16(v.sent) - v.acked > 0x7FFF ==> U16(v.sent) == 0xFFFF && v.acked == 0
  {
    hide U16, Int16;
    Small(U16(w.sent) - seqno);
  }

  /** In it, every answer within the last 0x8000 probes is taken. */
  lemma SecondTestTakes(w: Window, s: int)
    requires U16(w.sent) == 0xFFFF && w.acked == 0 && 0 <= w.sent - s <= 0x7FFF
    ensures Acknowledge(w, U16(s)).acked == U16(s)
  {
    hide U16, Int16;
    Gap(w.sent, s);
  }

  /** An answer that is taken makes the window exact again. */
  lemma Recovered(v: Window, s: int)
    requires 0 <= v.sent - s <= 0x7FFF && v.acked == U16(s)
    ensures Tracks(v, s) && InFlight(v, 0, 0) == v.sent - s
  {
    TrackedInFlight(v, s, 0, 0);
  }

  lemma SumOf(x: int, k: nat)
    requires k < 0x1_0000
    ensures U16(x + k) == if U16(x) + k < 0x1_0000 then U16(x) + k else U16(x) + k - 0x1_0000
  {
    var m := 0x1_0000;
    var c := if U16(x) + k < m then 0 else 1;
    DivMod(x + k, m, x / m + c, U16(x) + k - m * c);
  }

  /** Over any run that stays narrow, in_flight and acked are exact for the full-width counters. */
  lemma {:induction false} WindowRefinesCounters(events: seq<Event>, received: int, errors: int)
    requires Narrow(events)
    ensures var w := Run(events);
            w.sent == RunSent(events) && w.acked == U16(RunTop(events)) && Tracks(w, RunTop(events))
            && InFlight(w, received, errors) == RunSent(events) - RunTop(events)
  {
    if |events| > 0 {
      var before, e := events[..|events| - 1], events[|events| - 1];
      WindowRefinesCounters(before, received, errors);
      if e.Send? {
        SendTracked(Run(before), RunTop(before));
      } else {
        AnswerTracked(Run(before), RunTop(before), e.seqno);
      }
    }
    TrackedInFlight(Run(events), RunTop(events), received, errors);
  }

  /** The newest carrier of the i-th event's number, when it was answered within the last 0x8000. */
  predicate AnswersAt(events: seq<Event>, i: nat, s: int)
    requires i < |events|
  {
    && events[i].Answer? && s == Carrier(RunSent(events[..i]), events[i].seqno)
    && RunSent(events[..i]) - s <= 0x7FFF
  }

  /** RunTop is what it says: the largest carrier among the answers that came in time, or 0. */
  lemma {:induction false} TopIsLargest(events: seq<Event>)
    ensures 0 <= RunTop(events) <= RunSent(events)
    ensures forall i, s | 0 <= i < |events| && AnswersAt(events, i, s) :: s <= RunTop(events)
    ensures RunTop(events) == 0 || exists i :: 0 <= i < |events| && AnswersAt(events, i, RunTop(events))
  {
    hide Carrier, AnswersAt, RunTop, RunSent;
    NoTop();
    if |events| > 0 {
      var n := |events| - 1;
      var before := events[..n];
      TopIsLargest(before);
      TopStep(events);
      forall i, s | 0 <= i < n
        ensures AnswersAt(before, i, s) <==> AnswersAt(events, i, s)
      {
        SameAnswer(events, n, i, s);
      }
      if RunTop(before) != 0 {
        var i :| 0 <= i < n && AnswersAt(before, i, RunTop(before));
        assert AnswersAt(events, i, RunTop(before));
      }
    } else {
      assert events == [];
    }
  }

  lemma NoTop()
    ensures RunTop([]) == RunSent([]) == 0
  {
  }

  lemma SameAnswer(events: seq<Event>, n: nat, i: nat, s: int)
    requires i < n <= |events|
    ensures AnswersAt(events[..n], i, s) <==> AnswersAt(events, i, s)
  {
    hide Carrier;
    assert events[..n][..i] == events[..i];
  }

  /** What the last event does to the largest number answered. */
  lemma TopStep(events: seq<Event>)
    requires |events| > 0
    ensures var n := |events| - 1;
            && RunTop(events) >= RunTop(events[..n])
            && RunSent(events) >= RunSent(events[..n])
            && (RunTop(events) == RunTop(events[..n])
                || (AnswersAt(events, n, RunTop(events)) && RunTop(events) <= RunSent(events)))
            && forall s | AnswersAt(events, n, s) :: s <= RunTop(events)
  {
  }

  /** in_flight is right after every step of a run, whatever the counters it may fall back on. */
  ghost predicate ExactThroughout(events: seq<Event>) {
    forall n, received, errors | 0 <= n <= |events| ::
      InFlight(Run(events[..n]), received, errors) == RunSent(events[..n]) - RunTop(events[..n])
  }

  lemma {:induction false} NarrowPrefix(events: seq<Event>, n: nat)
    requires n <= |events| && Narrow(events)
    ensures Narrow(events[..n])
  {
    if n == |events| {
      assert events[..n] == events;
    } else {
      NarrowPrefix(events[..|events| - 1], n);
      assert events[..|events| - 1][..n] == events[..n];
    }
  }

  /** An answer never widens the gap, and a send widens it by one. */
  lemma GapStep(events: seq<Event>)
    requires |events| > 0
    ensures var before := events[..|events| - 1];
            if events[|events| - 1].Send?
            then RunSent(events) == RunSent(before) + 1 && RunTop(events) == RunTop(before)
            else RunSent(events) == RunSent(before) && RunTop(events) >= RunTop(before)
  {
    hide Carrier;
  }

  /** The step that ends a narrow run leaves in_flight to the difference of the counters. */
  lemma WidensTo(events: seq<Event>, received: int, errors: int)
    requires |events| > 0 && Narrow(events[..|events| - 1]) && !Narrow(events)
    ensures RunSent(events) - RunTop(events) == 0x8000
    ensures InFlight(Run(events), received, errors) == RunSent(events) - received - errors
  {
    var before := events[..|events| - 1];
    GapStep(events);
    WindowRefinesCounters(before, received, errors);
    FirstSendPastTheWindow(Run(before), RunTop(before), received, errors);
  }

  /** in_flight is exact throughout a run if and only if the run is narrow. */
  lemma ExactIffNarrow(events: seq<Event>)
    ensures ExactThroughout(events) <==> Narrow(events)
  {
    if Narrow(events) {
      forall n, received, errors | 0 <= n <= |events|
        ensures InFlight(Run(events[..n]), received, errors) == RunSent(events[..n]) - RunTop(events[..n])
      {
        NarrowPrefix(events, n);
        WindowRefinesCounters(events[..n], received, errors);
      }
    } else {
      FirstWide(events);
    }
  }

  lemma {:induction false} FirstWide(events: seq<Event>)
    requires !Narrow(events)
    ensures !ExactThroughout(events)
  {
    var before := events[..|events| - 1];
    if Narrow(before) {
      WidensTo(events, 0, RunTop(events) + 1);
      assert events[..|events|] == events;
    } else {
      FirstWide(before);
      var n, received, errors :| 0 <= n <= |before|
        && InFlight(Run(before[..n]), received, errors) != RunSent(before[..n]) - RunTop(before[..n]);
      assert before[..n] == events[..n];
    }
  }

  function Silence(n: nat): (events: seq<Event>)
    ensures |events| == n
  {
    if n == 0 then [] else Silence(n - 1) + [Send]
  }

  lemma SilentSend(w: Window, n: nat)
    requires 0 < n <= 0x1_0000 && w.sent == n - 1 && w.acked == if n - 1 < 0x8000 then 0 else 0x8001
    ensures Advance(w).acked == if n < 0x8000 then 0 else 0x8001
  {
    Small(n);
  }

  lemma SilentInFlight(w: Window, n: nat)
    requires n <= 0x1_0000 && w.sent == n && w.acked == if n < 0x8000 then 0 else 0x8001
    ensures InFlight(w, 0, 0) == if n <= 0x8000 then n else n - 0x8001
  {
    Difference(n, w.acked);
    Small(n - w.acked);
  }

  /**
   * The limit of the refinement. When nothing at all is answered, the 0x8001st probe makes
   * in_flight start again from zero: for up to 0x10000 probes it is right exactly up to 0x8000.
   */
  lemma {:induction false} SilentRun(n: nat)
    requires n <= 0x1_0000
    ensures var w := Run(Silence(n));
            w.sent == n && w.acked == (if n < 0x8000 then 0 else 0x8001)
            && InFlight(w, 0, 0) == (if n <= 0x8000 then n else n - 0x8001)
    ensures InFlight(Run(Silence(n)), 0, 0) == n <==> n <= 0x8000
  {
    hide InFlight;
    if n > 0 {
      SilentRun(n - 1);
      assert Silence(n)[..n - 1] == Silence(n - 1);
      SilentSend(Run(Silence(n - 1)), n);
    }
    SilentInFlight(Run(Silence(n)), n);
  }
}
