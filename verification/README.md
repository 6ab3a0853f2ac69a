# A verified model of iputils `ping`, `clockdiff` and their text helpers

The repository is a fork of iputils whose `ping` has gained a small AI add-on. Most of its files mix
system calls with dense little algorithms. This project models those algorithms in Dafny and proves
what they are for. The kernel, the network and the clocks appear as arbitrary inputs: the outcome of
a send, the bytes of a packet, a reading of a clock.

Code that works by changing things in place is modelled in place. Structures whose fields the
program overwrites are classes, buffers are arrays, and the program's loops are loops. Each such
method is proved against a function of the old state, and what the program promises is then proved
of these functions over all inputs and all runs. A little-endian host with 64-bit `long` is assumed.

| modules | what they model |
|---|---|
| `Md5Spec`, `Md5Transform`, `Md5` | RFC 1321 and the streaming implementation in `md5.c` |
| `Nonce` | the IPv6 node-information nonce with its cached digest |
| `Received`, `Window`, `Statistics` | the duplicate table, the 16-bit acknowledgement window, the counters and the moving average |
| `TokenBucket`, `Scheduler`, `Engine` | the rate check, `pinger` and `schedule_exit` as a state machine over whole runs, and the procedures that carry it out on `struct ping_rts` |
| `InternetChecksum`, `Probe` | the two RFC 1071 implementations and the two-pass checksum of an echo request |
| `Filter`, `Reply` | the BPF program and the raw-socket parser it must not hide anything from |
| `Clock` | the clock offset estimator of `clockdiff` |
| `SquareRoot` | the integer Newton iteration behind `mdev` |
| `Escape`, `Wrap` | the JSON escaper with its extractor, and the word wrapper |
| `JsonText`, `JsonBuffer` | the JSON builder, with a reader that gives its output a meaning |
| `Words` | fixed-width words, byte order, division as in C |

## Where the code does less than its comments suggest

Each of these is stated as a theorem about the code as it is.

* `in_flight` is exact throughout a run, whatever the counters it may fall back on, if and only if
  the gap to the largest number answered stays below 0x8000 (`Window.ExactIffNarrow`). The send that
  makes the gap 0x8000 switches it to `ntransmitted - nreceived - nerrors`. The next one makes the
  window forget all that is outstanding when `acked` was in the lower half of its range
  (`Window.FirstSendPastTheWindow`, `Window.SecondSendPastTheWindow`). With no answer at all these
  counters agree with it for one probe more, and it is wrong for all the 0x8000 after that
  (`Window.SilentRun`).
* The number of replies received can exceed the number of probes sent exactly when 65536 probes or
  more were sent (`Statistics.ReceivedBound`, `Statistics.OneReplyTooMany`).
* `llsqrt` returns its last iterate, not the one before: the root of `a + 1`
  (`SquareRoot.LlSqrt`, `SquareRoot.OneTooMuch`).
* The JSON statistics end in a comma, and are not JSON, exactly when `pipesize > 1` and the flood
  fields do not follow (`JsonBuffer.StatisticsReadBack`).
* Extraction undoes escaping exactly for strings without control characters other than newline,
  return and tab, of at most 2044 bytes (`Escape.RoundTrip`).
* Word wrapping loses text exactly when a word has more than 255 bytes
  (`Wrap.LinesCarryTheWords`).
* The elapsed time of the rate check is too long exactly when the nanoseconds went back by other than
  whole milliseconds, by almost 1 ms at worst (`TokenBucket.ElapsedTooLong`,
  `TokenBucket.AlmostOneMsTooLong`). So an unlimited flood can send after 9 ms and 1 ns instead of
  10 ms, and the exact condition is known (`TokenBucket.FloodIsPaced`, `TokenBucket.FloodBelowTen`).
* The wait for the last replies is the one meant exactly when twice the longest trip is not less
  than the interval or the interval in microseconds fits an int (`Scheduler.LastWaitIs`). With an
  interval of one hour, `1000 * interval` overflows; where it wraps, the wait becomes half a million
  years (`Scheduler.OneHour`).

* `schedule_exit` can bring the next call forward. It does so exactly when it allows one interval for
  the last replies, that product wraps to a negative number, and the call was due after what is then
  left of the wait (`Scheduler.ExitLowers`). With `-i 2000000 -c 2` and one reply, 2000000000 ms
  become 1269855559 (`Scheduler.Lowered`).
* `json_escape` checks for four more bytes but an escape can take six. Its index leaves the buffer
  exactly when a six-character escape starts with only five or six bytes left
  (`Escape.StaysInBounds`, `Escape.EndsInBounds`). A text of 128 control characters, which an add-on
  may supply, does that to the 768 bytes reserved for it (`Escape.TooManyControls`).
* The check for a full JSON buffer looks at one piece at a time. It stops the program only for a
  piece of 4000 bytes or more; a shorter one that no longer fits is cut, and the size passes the end
  (`JsonBuffer.Buffer.Append`).

## Model

| member | source | states |
|---|---|---|
| Md5Transform.Select | iputils/md5.c:159-160 | The shortened F1 is the bit selection F of RFC 1321 section 3.4 |
| Md5Transform.SelectTurned | iputils/md5.c:161 | F2, which is F1 with turned arguments, is the RFC's G |
| Md5Transform.StepMatches | iputils/md5.c:166-167 | One MD5STEP, with its different order of additions, is one operation of the RFC's table on the register it overwrites |
| Md5Transform.Round1 | iputils/md5.c:183-198 | The first 16 unrolled steps, with rotating register roles and literal constants, are steps 1 to 16 of the table |
| Md5Transform.Round2 | iputils/md5.c:200-215 | Likewise steps 17 to 32, with message words 1 + 5i modulo 16 |
| Md5Transform.Round3 | iputils/md5.c:217-232 | Likewise steps 33 to 48, with message words 5 + 3i modulo 16 |
| Md5Transform.Round4 | iputils/md5.c:234-249 | Likewise steps 49 to 64, with message words 7i modulo 16 |
| Md5Transform.Transform | iputils/md5.c:174-255 | The in-place block function is the RFC's table-driven one, for every state and block |
| Md5.CountIsLength | iputils/md5.c:66-70 | The two counter words of a message of n bytes are the low and the high half of 8n modulo 2^64 |
| Md5.CountAdvances | iputils/md5.c:66-70 | Adding a length to the counter, with the carry detected by comparison and the bits shifted out, gives the counter of the longer message |
| Md5.Waiting | iputils/md5.c:72 | The low counter word tells how many bytes wait in the buffer |
| Md5.Md5Context.constructor | iputils/md5.c:47-56 | A fresh context has been fed nothing |
| Md5.Md5Context.Count | iputils/md5.c:66-70 | The update of the counter in place |
| Md5.Md5Context.Update | iputils/md5.c:61-101 | The context then stands for everything fed before with the new bytes behind it: registers, buffered tail and counter |
| Md5.Md5Context.TopUp | iputils/md5.c:74-88 | A partly filled block is completed and absorbed; exactly the rest of the input remains |
| Md5.Md5Context.WholeBlocks | iputils/md5.c:90-97 | All whole blocks of the input are absorbed in order; less than a block remains |
| Md5.Md5Context.PadTo56 | iputils/md5.c:114-138 | After the padding, in one block or two, what is absorbed and buffered is the message, 0x80, and the zeros the RFC asks for |
| Md5.Md5Context.Final | iputils/md5.c:107-153 | The digest delivered is the RFC 1321 digest of everything fed, and the context is wiped |
| Md5.DigestChunks | iputils/md5.c:47-153 | However a message is cut into chunks, Init, the Updates and Final give the RFC 1321 digest of the whole |
| Nonce.NonceParts | iputils/ping/node_info.c:113-126 | The nonce for s is s in network order and the first six bytes of the digest of the secret and these two bytes |
| Nonce.OnlyTheFilledNonce | iputils/ping/node_info.c:129-132 | A check answers s for exactly the one nonce that is filled for s, and -1 for exactly those filled for no number |
| Nonce.NonceCache.Refresh | iputils/ping/node_info.c:113-121 | The cached digest is again that of the secret and the cached sequence bytes |
| Nonce.NonceCache.Answer | iputils/ping/node_info.c:107-133 | Over any interleaving of fills and checks, the answer is as if the digest were computed afresh |
| Nonce.NonceCache.Fill | iputils/ping/node_info.c:136-151 | The nonce for s: s in network order, then the first bytes of the digest |
| Nonce.NonceCache.Check | iputils/ping/node_info.c:154-164 | The verdict on a nonce, which it leaves alone, whatever the cache holds |
| Received.OneBit | iputils/ping/ping.h:283-302 | Setting or clearing one bit of a word changes the answer for that bit and no other |
| Received.RcvdTable.Set | iputils/ping/ping.h:286-290 | Adds exactly one number to that set |
| Received.RcvdTable.Clear | iputils/ping/ping.h:292-296 | Removes exactly one number from that set |
| Window.AnswerTracked | iputils/ping/ping.h:375-385 | While the gap is below 0x8000, acknowledge moves the window to the maximum of the full-width numbers, across wraps, and pipesize to the longest distance |
| Window.SendTracked | iputils/ping/ping.h:387-393 | While there is room in the window, a send leaves the answered maximum in place |
| Window.TrackedInFlight | iputils/ping/ping.h:369-373 | in_flight is then the exact difference of the full-width counters |
| Window.FirstSendPastTheWindow | iputils/ping/ping.h:369-393 | The send that makes the gap 0x8000 switches in_flight to sent minus received minus errors |
| Window.SecondSendPastTheWindow | iputils/ping/ping.h:387-393 | The next send makes the window stand for nothing outstanding, or keeps the counters in use, by the half in which acked lies |
| Window.LateAnswer | iputils/ping/ping.h:375-393 | Right after the first send past the window, which answers acknowledge takes: in the lower half of acked's range none but before a wrap, in the upper half all but that to the newest probe |
| Window.SecondTest | iputils/ping/ping.h:381-383 | In every run, the second test of acknowledge decides only when the count stands before a wrap and acked is 0 |
| Window.SecondTestTakes | iputils/ping/ping.h:381-383 | There it takes every answer within the last 0x8000 probes |
| Window.Recovered | iputils/ping/ping.h:369-385 | An answer that is taken makes the window exact again |
| Window.WindowRefinesCounters | iputils/ping/ping.h:369-393 | Over every run whose gap stays below 0x8000, acked is the largest answered number modulo 2^16 and in_flight is exact |
| Window.ExactIffNarrow | iputils/ping/ping.h:369-393 | in_flight is the exact difference after every step of a run, whatever the counters it falls back on, if and only if the gap stays below 0x8000 |
| Window.TopIsLargest | iputils/ping/ping.h:375-385 | That number is the largest one answered within the last 0x8000 sent, or 0 when there is none, and at most the number sent |
| Window.SilentRun | iputils/ping/ping.h:369-393 | With nothing answered, in_flight is exact if and only if at most 0x8000 probes were sent (for up to 0x10000) |
| Statistics.WindowOfRun | iputils/ping/ping_common.c:760-762 | The window inside the statistics moves only with sends, with replies whose checksum is good and with ICMP errors, so the window theorems apply to every run |
| Statistics.Conservation | iputils/ping/ping_common.c:760-822 | Over any interleaving, received is the set bits plus the bits erased by sends; received, repeated and corrupted replies add up to the replies processed, with the corrupted ones and the errors counted exactly |
| Statistics.TableWithinSent | iputils/ping/ping.c:1657 | With fewer than 65536 probes and answers only to probes sent, only numbers sent are set, and no send finds its bit set |
| Statistics.ReceivedAtMostSent | iputils/ping/ping_common.c:812-822 | Then received equals the number of set bits and is at most the number sent |
| Statistics.ReceivedBound | iputils/ping/ping_common.c:812-822 | No run of n probes, with answers only to probes sent, counts more first answers than probes if and only if n is below 65536 |
| Statistics.OneReplyTooMany | iputils/ping/ping_common.c:812-822 | For every n from 65536 on, such a run with one more received than sent |
| Statistics.SmoothInRange | iputils/ping/ping_common.c:803-806 | One step of the fixed-point average stays between eight times the smallest and eight times the largest sample plus 7 |
| Statistics.SmoothWeight | iputils/ping/ping_common.c:803-806 | A new sample enters the average with the weight of one eighth, up to the rounding |
| Statistics.SmoothApproaches | iputils/ping/ping_common.c:803-806 | A sample shortens the distance of the average from it by an eighth and at least by one, and an average that is there stays |
| Statistics.SmoothArrives | iputils/ping/ping_common.c:803-806 | With equal samples the average arrives, from wherever it starts |
| Statistics.AverageInRange | iputils/ping/ping_common.c:796-806 | After any number of samples in any order the extremes are exact, rtt / 8 lies between them, and rtt is 0 only if every sample was |
| Statistics.SquareFits | iputils/ping/ping_common.c:798 | The square of a clamped trip time fits in a signed 64-bit integer |
| Statistics.TripInRange | iputils/ping/ping_common.c:769-794 | Whatever stamp comes back over the network, the trip time is in 0 to 2147999999 |
| Statistics.TripIsDifference | iputils/ping/ping.h:326-333 | For well-formed readings it is the difference in microseconds, or 0 when that is out of range |
| Statistics.TripMalformed | iputils/ping/ping_common.c:771-794 | Stamps with impossible microseconds are cut to the second they seem to lie in |
| Statistics.RestampedTrip | iputils/ping/ping_common.c:784-791 | After a clock that went back the trip time is that of the second reading, unless latency mode is on |
| Statistics.TripTime | iputils/ping/ping_common.c:768-794 | The restamp loop: after a clock that went back, one more reading is taken, once, and latency mode is set |
| Statistics.StampRead | iputils/ping/ping_common.c:765-766 | A struct timeval copied into a packet and out of it is the same |
| TokenBucket.NoOverflow | iputils/ping/ping_common.c:515-516 | The check in setup keeps interval times preload within an int |
| TokenBucket.ElapsedError | iputils/ping/ping_common.c:331-332 | With a monotone clock the elapsed time is never negative and less than 1 ms too long |
| TokenBucket.ElapsedTooLong | iputils/ping/ping_common.c:331-332 | It is too long if and only if the nanoseconds went back by other than whole milliseconds |
| TokenBucket.AlmostOneMsTooLong | iputils/ping/ping_common.c:331-332 | The bound is reached: two readings for which it is 999999 ns too long |
| TokenBucket.AdmitBounds | iputils/ping/ping_common.c:325-351 | An admission leaves between 0 and interval * (preload - 1) tokens and charges the elapsed time; a refusal waits for a positive time |
| TokenBucket.AccountBalanced | iputils/ping/ping_common.c:325-441 | One call keeps the books balanced: interval times unrefunded admissions plus tokens is at most interval times preload plus the time charged |
| TokenBucket.AlwaysBalanced | iputils/ping/ping_common.c:325-441 | The books are balanced after every run with a monotone clock |
| TokenBucket.RateIsLimited | iputils/ping/ping_common.c:325-441 | Over any run the admissions not refunded are bounded by preload plus one per interval of real time, up to less than 1 ms per admission |
| TokenBucket.WaitIsExact | iputils/ping/ping_common.c:342-348 | The time a refusal asks for is exactly the time after which a call is admitted, with the tokens kept so far |
| TokenBucket.FloodIsFree | iputils/ping/ping_common.c:333-348 | With interval 0 and fewer than preload unanswered probes every call is admitted |
| TokenBucket.BooksAreExact | iputils/ping/ping_common.c:325-440 | Over every run: interval * unrefunded admissions + tokens + forfeited time equals interval * preload + time charged, where only a full bucket and failed sends forfeit |
| TokenBucket.ChargedEnough | iputils/ping/ping_common.c:331-332 | The time charged falls behind real time by less than 1 ms per admission |
| TokenBucket.RateIsServed | iputils/ping/ping_common.c:325-440 | The lower bound: when a call is refused, more than preload - 1 and one per interval of real time were admitted, up to rounding and what was forfeited |
| TokenBucket.FloodIsPaced | iputils/ping/ping_common.c:333-338 | With interval 0 and preload or more unanswered probes, a probe goes out if and only if 10 ms have passed, or more than 9 ms and the nanoseconds went back |
| TokenBucket.FloodBelowTen | iputils/ping/ping_common.c:333-338 | An admission 9 ms and 1 ns after the last one |
| Scheduler.SentOnce | iputils/ping/ping_common.c:361-440 | However often a call resends and however the send ends, at most one probe is counted as sent |
| Scheduler.PingSends | iputils/ping/ping_common.c:315-441 | A call of pinger advances ntransmitted by at most one and never past npackets |
| Scheduler.ProbeCounts | iputils/ping/ping_common.c:358-440 | Every counter, the window, the table and the kept values after an admitted call, for each outcome |
| Scheduler.DueAfterDelivery | iputils/ping/ping_common.c:361-372 | After a delivered probe the time asked for is exactly that after which the next call is admitted |
| Scheduler.DueAfterFailure | iputils/ping/ping_common.c:386-440 | After a failure: 10 ms for a full socket buffer, half an interval between 10 and 500 ms for an overflow, else one interval or 10 ms |
| Scheduler.GivesUp | iputils/ping/ping_common.c:393-401 | An overflow becomes a hard error exactly when the pauses in a row amount to the linger time |
| Scheduler.NothingToSend | iputils/ping/ping_common.c:321-323 | When all is sent without a deadline, or a signal came, a call changes nothing and asks for 1000 ms |
| Scheduler.StillSending | iputils/ping/ping_common.c:321-351 | Otherwise the rate check decides and no last wait is set |
| Scheduler.Lingers | iputils/ping/ping_common.c:270-275 | When all is sent and nothing has come back, the last wait is the linger time and the next call no earlier |
| Scheduler.LastWaitIs | iputils/ping/ping_common.c:266-269 | Once replies have come, the wait is the larger of one interval and twice the longest trip if and only if twice the trip is not less or the interval in microseconds fits an int |
| Scheduler.OneHour | iputils/ping/ping_common.c:258-283 | An input for which it is not: an interval of one hour |
| Scheduler.ExitLowers | iputils/ping/ping_common.c:258-283 | schedule_exit lowers the time of the next call if and only if one interval is allowed for, its product wraps to a negative number and the time is beyond what is left of the wait |
| Scheduler.Lowered | iputils/ping/ping_common.c:258-283 | An input for which it does: an interval of 2000000 s |
| Scheduler.ExitNeverLowers | iputils/ping/ping.h:362-367 | It does not when the product fits, and otherwise leaves the time more than 11 days away, which is what the sending loop needs |
| Scheduler.TurnDrains | iputils/ping/ping_common.c:621-624 | A turn that asks for another one at once has taken a token that time did not give back |
| Scheduler.Burst.Continue | iputils/ping/ping_common.c:621-624 | With a still clock and a positive interval, every turn that does not end the loop brings it nearer to its end after preload sends |
| Scheduler.FirstBurst | iputils/ping/ping_common.c:325-351 | From a fresh start with every send delivered, exactly preload probes go out at once; then one interval is asked for and a further call refused |
| Scheduler.LiveStatistics | iputils/ping/ping_common.c:608-746 | The statistics of any run of ticks, arrivals and signals are those of its events, so all theorems about events hold of it |
| Scheduler.LiveBooked | iputils/ping/ping_common.c:315-441 | In any run the bucket is the one of the ledger of its calls, and every probe sent is an admission that was not refunded |
| Scheduler.PacedRun | iputils/ping/ping_common.c:315-441 | In every run with a positive interval and a monotone clock, whatever replies and errors arrive: interval * ntransmitted + tokens <= interval * preload + time charged, the charge follows real time, and ntransmitted never exceeds npackets |
| Scheduler.DeliveredRun | iputils/ping/ping_common.c:315-373 | With every send delivered, a run sends exactly what the rate check admits |
| Scheduler.ServedRun | iputils/ping/ping_common.c:315-373 | Such a run, when a call is refused, has sent more than preload - 1 and one per interval of real time, up to rounding and the time that fell on a full bucket |
| Scheduler.LiveLingers | iputils/ping/ping_common.c:258-283 | In every run, the tick that sends the last probe with nothing received sets the linger time as the last wait |
| Scheduler.LiveWaitStays | iputils/ping/ping_common.c:258-264 | In every run, the last wait once set is never changed |
| Scheduler.LiveReady | iputils/ping/ping_common.c:608-624 | Every state that a run reaches is one from which the sending loop ends as stated |
| Scheduler.LiveWindow | iputils/ping/ping.h:369-373 | In every run whose gap stays below 0x8000, in_flight is the exact difference |
| Scheduler.CountedRun | iputils/ping/ping_common.c:750-822 | In every run each reply is counted once, and received is at most sent under the conditions above |
| Engine.PingRts.Acknowledge | iputils/ping/ping.h:375-385 | acknowledge in place |
| Engine.PingRts.AdvanceNtransmitted | iputils/ping/ping.h:387-393 | advance_ntransmitted in place |
| Engine.PingRts.TakeSample | iputils/ping/ping_common.c:799-806 | The extremes and the average take in one trip time |
| Engine.PingRts.CountReply | iputils/ping/ping_common.c:812-822 | A reply is counted as corrupted, repeated or received, and only in the last case enters the table |
| Engine.PingRts.GatherStatistics | iputils/ping/ping_common.c:750-822 | One reply is exactly one step of the statistics, timed if it is long enough |
| Engine.PingRts.SendProbes | iputils/ping/ping.c:1657 | Sending again and again clears the bit of the next number each time |
| Engine.PingRts.PassGate | iputils/ping/ping_common.c:325-351 | The rate check in place takes the verdict of the token bucket; a refusal changes nothing |
| Engine.PingRts.Conclude | iputils/ping/ping_common.c:364-440 | What every outcome does to counters, window, tokens and pauses |
| Engine.PingRts.Pinger | iputils/ping/ping_common.c:315-441 | pinger is one step of the scheduler: the whole new state and the value returned |
| Engine.PingRts.ScheduleExit | iputils/ping/ping_common.c:258-283 | schedule_exit is one step of the scheduler, with the conversions between int and unsigned long and the product that wraps |
| Engine.PingRts.SendDue | iputils/ping/ping_common.c:621-624 | The sending loop ends, after the first turn whose time is positive, with at most preload sends |
| InternetChecksum.OnesSumIsCanon | iputils/ping/ping.c:1617-1630 | Deferring the carries does not change a one's complement sum: the representative modulo 65535, 0 only for a sum of 0 |
| InternetChecksum.CanonAbsorbs | iputils/ping/ping.c:1603-1633 | A folded partial sum may be continued from |
| InternetChecksum.TwoFolds | iputils/ping/ping.c:1629-1630 | Two folds suffice for every sum that fits a signed 32-bit int, and give that representative in their low 16 bits |
| InternetChecksum.ComplementCancels | iputils/ping/ping.c:1631 | Adding the complement of a sum gives all ones, for a sum of 0 too |
| InternetChecksum.SumAppend | iputils/ping/ping.c:1617-1624 | Sums of a buffer split at an even place add up |
| InternetChecksum.OneWordChanged | iputils/ping/ping.c:1752 | A change of one word of an intact message is noticed, except between the two zeros of one's complement |
| InternetChecksum.ByteOrderIndependent | iputils/ping/ping.c:1603-1633 | Summing native words and swapping gives the network-order checksum that RFC 1071 section 1 defines (its section 2(B)) |
| InternetChecksum.InCksum | iputils/ping/ping.c:1603-1633 | For lengths up to 65535 the sum stays in an int and the result is the complement of the one's complement sum, continued from csum, odd lengths included |
| InternetChecksum.FoldAndComplement | iputils/ping/ping.c:1629-1632 | The end of in_cksum for any nonnegative int |
| InternetChecksum.ClockdiffCksum | iputils/clockdiff.c:155-199 | clockdiff's version with end-around carry after each word is the RFC 1071 checksum of every buffer |
| InternetChecksum.DeferredCarriesAgree | iputils/clockdiff.c:164-199 | Both programs compute the same checksum |
| Probe.SecondPass | iputils/ping/ping.c:1672-1678 | Continuing over the stamp, seeded with the complement of the first checksum, gives the checksum of the stamped packet |
| Probe.HeaderTotal | iputils/ping/ping.c:1653 | The checksum field enters the sum by its own value |
| Probe.MessageVerifies | iputils/ping/ping.c:1752 | in_cksum over a finished message is 0, for every payload, odd lengths included |
| Probe.PutHeader | iputils/ping/ping.c:1651-1655 | The header is written in place, the rest of the packet unchanged |
| Probe.Restamp | iputils/ping/ping.c:1674-1679 | Putting the stamp in last leaves a well-formed message around it |
| Probe.Compose | iputils/ping/ping.c:1643-1679 | In all three timing modes the packet handed to sendto is the well-formed echo request with the right payload |
| Filter.Decision | iputils/ping/ping.c:1904-1931 | What the program decides for a packet of any length: 0 for too short ones and for echo replies to another identifier, else a pass |
| Filter.FilterSlot.Install | iputils/ping/ping.c:1904-1931 | The first call patches the identifier in and attaches the program; later ones change nothing |
| Reply.FilterIsSound | iputils/ping/ping.c:1717-1847 | Every packet the filter rejects is one for which the parser returns 1 without counting |
| Reply.OurRepliesPass | iputils/ping/ping.c:1754-1767 | Every echo reply with our identifier passes in its full length |
| Reply.EchoIsCounted | iputils/ping/ping.c:1749-1767 | A correct reply to a probe passes the filter and is counted, uncorrupted, under the number it was sent with |
| Reply.EchoIsTimed | iputils/ping/ping.c:1674-1679 | A reply that returns the payload of a stamped probe carries the very time the probe was sent |
| Reply.ErrorExactly | iputils/ping/ping.c:1771-1797 | A message is an error for probe s if and only if it is of type 3, 11 or 12 and quotes enough of an echo request to our destination with our identifier and number s |
| Reply.ErrorIsAttributed | iputils/ping/ping.c:1781-1797 | In particular when it quotes the first 8 bytes, or more, of the very message that was composed |
| Reply.AnswerExactly | iputils/ping/ping.c:1752-1767 | A message is an answer for probe s if and only if it is an echo reply with our identifier and number s, corrupted if and only if its sum is wrong |
| Reply.UnrelatedExactly | iputils/ping/ping.c:1771-1832 | Messages of other types are passed over, and no others |
| Reply.MessageOf | iputils/ping/ping.c:1717-1751 | The message begins behind an IP header of at least 20 bytes and has at least 8; any other packet is refused |
| Reply.CorruptionIsNoticed | iputils/ping/ping.c:1752-1767 | A reply in which one word of the payload was changed is counted as corrupted |
| Reply.EffectIs | iputils/ping/ping.c:1754-1797 | An error acknowledges its probe and does nothing else; an answer is counted once; anything else changes nothing |
| Reply.ReadQuoted | iputils/ping/ping.c:1781-1797 | Reading the packet quoted by an ICMP error in the buffer classifies it as the specification does |
| Reply.ReadIcmp | iputils/ping/ping.c:1749-1833 | Likewise for the ICMP message |
| Reply.ParseReply | iputils/ping/ping.c:1701-1847 | The return value and the exact effect on counters, window, table and times of any packet, the trip time taken from the stamp in its bytes |
| Clock.SampleIsExact | iputils/clockdiff.c:276-320 | Against a truthful host the two centred differences of an accepted sample are exactly d + p and q - d, across midnight |
| Clock.AnswerAccepted | iputils/clockdiff.c:230-296 | The answer to the outstanding request, in order of time, is counted and acknowledged, and ends the measurement only when its time is nonstandard |
| Clock.OthersIgnored | iputils/clockdiff.c:230-283 | A packet is ignored exactly when it is not ours or its number is none of the requests'; one that seems to come before it was sent only acknowledges |
| Clock.FastTripDecides | iputils/clockdiff.c:330-334 | A trip below 1 ms sets both one-way minima by itself |
| Clock.SmoothedWeight | iputils/clockdiff.c:284-285 | A trip enters the smoothed time, and its error the deviation, with one quarter |
| Clock.SampleExplained | iputils/clockdiff.c:322-334 | One sample keeps min1, min2 and min_rtt the minima of the trips accepted, also when a fast trip resets them, and delta1 within its error |
| Clock.ReceiveExplained | iputils/clockdiff.c:201-337 | Likewise for any packet, which is never taken for a nonstandard time |
| Clock.RoundsExplained | iputils/clockdiff.c:390-431 | Likewise for every sequence of requests, losses and packets, counting the trips accepted |
| Clock.ErrorBound | iputils/clockdiff.c:342-434 | On success with a constant offset d: abs(2 * (measure_delta - d)) <= abs(min p - min q) + 1 and abs(2 * (measure_delta1 - d)) <= min_rtt + 1, over 50 or more trips |
| Clock.NoiseIgnored | iputils/clockdiff.c:418-431 | Packets of others make no difference |
| Clock.PromptHostIsMeasured | iputils/clockdiff.c:390-433 | A host that answers each of the first 50 requests in time, amid packets of others, is measured from 50 trips, accurately when it is truthful |
| Clock.SilentHostIsDown | iputils/clockdiff.c:390-400 | A host that answers nothing is taken to be down after exactly 11 requests |
| Clock.FailuresEnd | iputils/clockdiff.c:410-429 | A request that cannot be sent and a failing socket end the measurement with their codes |
| Clock.RunState.AroundMidnight | iputils/clockdiff.c:308-320 | A raw difference is brought into the half-day range |
| Clock.RunState.TakeSample | iputils/clockdiff.c:302-334 | The minima in place, and the early break for trips below 1 ms |
| Clock.RunState.MeasureInnerLoop | iputils/clockdiff.c:201-337 | One turn of the receive loop: all fields and the return code |
| Clock.RunState.Measure | iputils/clockdiff.c:342-434 | The whole measurement for any behaviour of the network: all fields, the code returned and measure_delta |
| SquareRoot.NextIsHigh | iputils/ping/ping_output.c:111 | An iterate is never below the root |
| SquareRoot.StopsAtRoot | iputils/ping/ping_output.c:109-112 | When the iterate no longer falls, the previous one was the root |
| SquareRoot.SumFits | iputils/ping/ping_output.c:111 | The sum that is halved is at most a + 1, so it does not overflow |
| SquareRoot.AfterRoot | iputils/ping/ping_output.c:111 | The iterate after the root of a is the root of a + 1 |
| SquareRoot.LlSqrt | iputils/ping/ping_output.c:103-116 | The loop ends and returns the integer root of a + 1 for 1 <= a < LLONG_MAX, and its argument otherwise |
| SquareRoot.OneTooMuch | iputils/ping/ping_output.c:103-116 | That is one more than the integer root of a exactly when a + 1 is a perfect square |
| Escape.OneMore | iputils/ping/coping_ai.c:64-79 | Where the loop goes on it appends the next whole escape, and that fits with the terminator unless it has six characters and starts too late |
| Escape.StaysInBounds | iputils/ping/coping_ai.c:64-81 | The loop stays inside the buffer if and only if no six-character escape starts where four more bytes fit but six do not |
| Escape.EnoughRoom | iputils/ping/coping_ai.c:61-82 | That holds for every source without other control characters, and for every source whose escape and 3 bytes fit |
| Escape.EndsInBounds | iputils/ping/coping_ai.c:64-81 | Where the loop ends, its index is inside the buffer under the same condition |
| Escape.TooManyControls | iputils/ping/coping_ai.c:322-332 | A text short enough for the prompt buffer whose escape leaves its own |
| Escape.JsonEscape | iputils/ping/coping_ai.c:61-82 | For every source: how far the loop goes; inside the buffer, the terminated escape of a prefix, never a split escape, and all of the source when its escape and 3 bytes fit; otherwise the text cut by snprintf and an index outside |
| Escape.EscapedIsRead | iputils/ping/coping_ai.c:61-82 | For every source, a reader of JSON strings (RFC 8259, section 7) gets back what was escaped, six-character escapes included |
| Escape.NoControls | iputils/ping/coping_ai.c:61-82 | No control character is left in an escaped text |
| Escape.IndexOfIsFirst | iputils/ping/coping_ai.c:95-99 | strstr finds the first occurrence |
| Escape.ReadValue | iputils/ping/coping_ai.c:110-128 | The loop in the result buffer reads the value up to its closing quote or 2044 characters |
| Escape.ExtractText | iputils/ping/coping_ai.c:92-130 | The extractor finds the first text marker after the first type marker, and the value behind it |
| Escape.NothingExtracted | iputils/ping/coping_ai.c:94-101 | There is no result if and only if no type marker has a text marker at or behind it |
| Escape.OtherBackslash | iputils/ping/coping_ai.c:112-121 | A backslash before any other character is dropped, and one at the end of the input kept |
| Escape.ScanEscaped | iputils/ping/coping_ai.c:110-127 | Scanning an escaped string stops at its own closing quote, whatever follows, also for other control characters |
| Escape.RoundTrip | iputils/ping/coping_ai.c:61-130 | Extracting an escaped string gives it back if and only if its only control characters are newline, return and tab and it has at most 2044 bytes |
| Escape.ResponseText | iputils/ping/coping_ai.c:92-130 | Likewise for a whole response, with any fields before, between and after the first type marker and the first text marker behind it |
| Escape.AdjacentMarkers | iputils/ping/coping_ai.c:87-99 | In particular for a response in which the two markers follow each other |
| Wrap.FillWraps | iputils/ping/coping_ai.c:154-181 | Greedy filling keeps all words in order and lets no line of two or more words pass 66 columns |
| Wrap.GreedyStaysAhead | iputils/ping/coping_ai.c:167-178 | Against every other wrapping the greedy one has fewer lines, or as many with a last line no longer |
| Wrap.FewestLines | iputils/ping/coping_ai.c:154-181 | No wrapping of the same words has fewer lines |
| Wrap.WordsOfLines | iputils/ping/coping_ai.c:169-181 | Splitting the lines shown at separators gives back their words, cut to 255 bytes |
| Wrap.LinesCarryTheWords | iputils/ping/coping_ai.c:154-181 | The words of all lines are the words of the text if and only if none has more than 255 bytes |
| Wrap.LinesFitTheBox | iputils/ping/coping_ai.c:149-181 | Every line fits in 66 bytes if and only if every word does, and no line is empty |
| Wrap.LineBuffer.Flush | iputils/ping/coping_ai.c:168-171 | The line goes out and the buffer is blank again |
| Wrap.LineBuffer.Add | iputils/ping/coping_ai.c:173-178 | A word is appended within the buffer, whose last byte stays NUL |
| Wrap.LineBuffer.MakeRoom | iputils/ping/coping_ai.c:167-172 | The line is flushed exactly when the word would pass the columns |
| Wrap.LineBuffer.WrapText | iputils/ping/coping_ai.c:154-181 | The loop ends for every text, newlines included, and prints the lines of greedy filling |
| Wrap.SkipSpaces | iputils/ping/coping_ai.c:156 | Skipping spaces loses no word |
| JsonText.DecimalDigits | iputils/ping/ping_json.c:58-61 | A printed number consists of digits and reads back as itself |
| JsonText.StringRead | iputils/ping/ping_json.c:42-45 | A string that needs no escaping reads back as itself, whatever follows |
| JsonText.ValueRead | iputils/ping/ping_json.c:42-99 | So does every value: strings, numbers, arrays and objects within objects |
| JsonText.MembersThen | iputils/ping/ping_json.c:37-67 | After written members and a comma, reading goes on with whatever follows |
| JsonText.ObjectRead | iputils/ping/ping_json.c:27-99 | A written object, with white space behind it, reads back as exactly its keys and values, in order |
| JsonBuffer.Buffer.Append | iputils/ping/ping_json.c:14-20 | Formatting behind the text adds exactly the new piece, terminated, when it fits; otherwise the text is cut, and the size passes the end unless the piece alone fills the buffer |
| JsonBuffer.Buffer.KvArray | iputils/ping/ping_json.c:70-92 | The loop over the argument list writes one array member |
| JsonBuffer.Buffer.KvObject | iputils/ping/ping_json.c:94-99 | The characters of the closed inner buffer become the value of one more member |
| JsonBuffer.Buffer.ConstructJson | iputils/ping/ping_json.c:101-141 | One more member, behind a comma unless it is the first |
| JsonBuffer.Buffer.PrintAndReset | iputils/ping/ping_json.c:193-199 | The closed text goes out and the buffer is empty again |
| JsonBuffer.PrintPacket | iputils/ping/ping_json.c:101-205 | Any run of construct_json calls whose text fits the buffer, printed with its newline, reads back as exactly those keys and values in order |
| JsonBuffer.ConstructRtt | iputils/ping/ping_json.c:162-170 | The inner object, built in a buffer of its own |
| JsonBuffer.ConstructStatistics | iputils/ping/ping_json.c:143-178 | The fields in order, with the inner object from its own buffer; with a pipe field the text is left after a comma |
| JsonBuffer.ConstructFlood | iputils/ping/ping_json.c:180-191 | The flood fields complete the object in both cases |
| JsonBuffer.FinishStatistics | iputils/ping/ping_output.c:187-217 | The text that goes out at the end of a run with timed replies |
| JsonBuffer.TrailingComma | iputils/ping/ping_json.c:174-177 | An object closed after a comma does not read as JSON, with any white space and whatever follows |
| JsonBuffer.StatisticsReadBack | iputils/ping/ping_output.c:187-217 | The statistics read back, and then as exactly their fields, if and only if pipesize <= 1 or the flood fields follow |
| JsonBuffer.StatisticsReported | iputils/ping/ping_json.c:143-191 | What is read back has exactly the expected fields, each under its own name with its own value |

## Left out

* System calls, sockets, signals and clocks are inputs: outcomes of sends, bytes received, readings.
* `main_loop` around its sending loop (polling, receive flags, exit tests) is the arbitrary order of ticks, arrivals and signals in `Scheduler.Live`.
* Adaptive mode (`-A`), which changes the interval during a run.
* Floating point: `tsum`, `tsum2` and the mean deviation computed from them; `llsqrt` is modelled on its integer argument.
* Widths of counters that would need more than 2^31 probes or seconds to overflow (`ntransmitted`, `nreceived`, `tokens` after the check in setup): unbounded integers.
* Signed overflow is taken to wrap, as it does where the program is built for (`1000 * interval`); overflow of the 64-bit seconds and microseconds in `tvsub`, which only a corrupted stamp can cause, is not modelled.
* JSON beyond what the program prints: the reader knows white space, but no escapes, fractions or nested arrays.
* The payload check and all printing in `gather_statistics`; `pr_icmph`, IP options and names.
* `abort` after a partial send, and the clearing of `confirm_flag`: immediate resends are only counted.
* Datagram sockets in `ping4_parse_reply`, and IPv6, whose filter and send path repeat the IPv4 ones.
* IP timestamp option mode of `clockdiff`, the poll timeout it derives from the smoothed time (a timeout is an event), and the draining of its socket before a measurement.
* `construct_json_error`, what the JSON builder does after its size has passed the end of the buffer, and the statistics of a run without timed replies, for which nothing is built.
* Box drawing and the padding of lines in `print_context_box`; an allocation failure in the extractor.
* The `PING6_NONCE_MEMORY` variant of the nonce, and big-endian hosts.
* `tracepath`, `arping`, libcurl, add-on loading, option parsing: foreign calls and plain output.
- Engine.PingRts.Conclude: takes the counting of errors on the error queue as part of the outcome, because it depends on what the kernel queued.
- Escape.JsonEscape: leaves out the write of the terminator where the index has left the buffer, because what that does is undefined.
- Clock.RunState.Measure: ends as unfinished when the given events end, because a network that answers some packets for ever keeps the program waiting.
- Reply.ParseReply: takes a receive buffer of at least 136 bytes, the size the program allocates for its smallest payload, so that the quoted header can be read before the length check as the program does.
- JsonBuffer.PrintPacket: covers strings that need no escaping, because the builder escapes nothing.
